/** What each transaction comes to, told row by row: which sessions become ready, fail
    or close, where the stream ends up, and what becomes of the job. */
module VideoOutcomes {
  import opened Prelude
  import opened VideoTables
  import opened VideoFence

  // ----- every job is about a stream and a session that exist

  ghost predicate JobLinked(db: Db, k: JobKey) {
    && k in db.jobs
    && var p := db.jobs[k].payload;
    && p.stream in db.streams && db.streams[p.stream].camera == p.camera && db.streams[p.stream].version == p.version
    && db.streams[p.stream].tenant == k.tenant && p.session in db.sessions && db.sessions[p.session].stream == p.stream
  }

  ghost predicate JobsLinked(db: Db) { forall k :: k in db.jobs ==> JobLinked(db, k) }

  /** Streams and sessions are never deleted and change their state only. */
  ghost predicate RowsStay(db: Db, after: Db) {
    && (forall id :: id in db.streams ==> id in after.streams && after.streams[id] == db.streams[id].(state := after.streams[id].state))
    && (forall id :: id in db.sessions ==> id in after.sessions && after.sessions[id] == db.sessions[id].(state := after.sessions[id].state))
  }

  lemma CreateRows(db: Db, now: Time, in_: CreateInput, guard: Option<Error>)
    requires Inv(db, now)
    ensures RowsStay(db, Create(db, now, in_, guard).0)
  {
    if Create(db, now, in_, guard).0 != db {
      EnsureStreamRows(db, in_.session);
      var (withStream, stream, _) := EnsureStream(db, in_.session);
      EnterRows(db, now, withStream, stream.value, in_);
    }
  }

  lemma EnsureStreamRows(db: Db, s: Session)
    requires Linked(db)
    ensures var (after, stream, _) := EnsureStream(db, s);
      RowsStay(db, after) && after.sessions == db.sessions && (stream.Some? ==> stream.value in after.streams)
  {}

  lemma EnterRows(db: Db, now: Time, withStream: Db, stream: string, in_: CreateInput)
    requires stream in withStream.streams && in_.id !in db.sessions && withStream.sessions == db.sessions && RowsStay(db, withStream)
    ensures RowsStay(db, Enter(db, withStream, stream, in_, now).0)
  {
    var withSession := withStream.(sessions := withStream.sessions[in_.id := in_.session.(stream := stream, state := SessionPending)]);
    if StartKey(in_) in withSession.jobs { JoinRows(withSession, in_, stream, now); }
  }

  lemma JoinRows(db: Db, in_: CreateInput, stream: string, now: Time)
    ensures in_.id in db.sessions && stream in db.streams && StartKey(in_) in db.jobs ==> RowsStay(db, JoinStartJob(db, in_, stream, now).0)
  {}

  lemma FinishRows(db: Db, now: Time, l: Lease, r: Result, next: Time, cameraVersion: Option<int>)
    ensures RowsStay(db, Finish(db, now, l, r, next, cameraVersion).0)
  {
    if Finish(db, now, l, r, next, cameraVersion).1.None? {
      var j := db.jobs[l.job];
      var done := db.(jobs := db.jobs[l.job := j.(status := FinalStatus(r), availableAt := next, leasedUntil := None, owner := None)]);
      ConcludeRows(done, l.job.kind, j.payload.stream, r, HasLive(db, j.payload.stream, now));
    }
  }

  lemma ConcludeRows(db: Db, kind: JobKind, stream: string, r: Result, active: bool)
    requires stream in db.streams
    ensures RowsStay(db, Conclude(db, kind, stream, r, active))
  {}

  lemma StopRows(db: Db, now: Time, id: string, guard: Option<Error>)
    ensures RowsStay(db, Stop(db, now, id, guard).0)
  {
    if id in db.sessions {
      var left := db.(sessions := db.sessions[id := db.sessions[id].(state := Revoked)]);
      var after := Stop(db, now, id, guard).0;
      assert after.sessions == left.sessions || after == db;
      assert after.streams == db.streams || after.streams == db.streams[db.sessions[id].stream := db.streams[db.sessions[id].stream].(state := Stopping)];
    }
  }

  lemma ClaimRows(db: Db, now: Time, k: JobKey, lease: Time, token: string)
    ensures k in db.jobs ==> RowsStay(db, Claim(db, now, k, lease, token).0)
  {}

  lemma RevalidateRows(db: Db, now: Time, l: Lease, rights: Authorization)
    ensures RowsStay(db, Revalidate(db, now, l, rights).0)
  {}

  lemma StepRows(db: Db, e: Event)
    requires Inv(db, e.now)
    ensures RowsStay(db, Step(db, e))
  {
    match e
    case CreateEvent(now, in_, guard) => CreateRows(db, now, in_, guard);
    case StopEvent(now, id, guard) => StopRows(db, now, id, guard);
    case ClaimEvent(now, k, lease, token) => ClaimRows(db, now, k, lease, token);
    case RevalidateEvent(now, l, rights) => RevalidateRows(db, now, l, rights);
    case FinishEvent(now, l, r, next, cameraVersion) => FinishRows(db, now, l, r, next, cameraVersion);
  }

  lemma NewJobsLinked(db: Db, e: Event, k: JobKey)
    requires Inv(db, e.now)
    ensures k in Step(db, e).jobs && k !in db.jobs ==> JobLinked(Step(db, e), k)
  {
    match e
    case CreateEvent(now, in_, guard) => if k !in db.jobs && k in Create(db, now, in_, guard).0.jobs { CreateLinks(db, now, in_, guard, k); }
    case StopEvent(now, id, guard) => if k !in db.jobs && k in Stop(db, now, id, guard).0.jobs { StopLinks(db, now, id, guard, k); }
    case FinishEvent(now, l, r, next, cameraVersion) => FinishAddsNoJob(db, now, l, r, next, cameraVersion);
    case _ =>
  }

  lemma CreateLinks(db: Db, now: Time, in_: CreateInput, guard: Option<Error>, k: JobKey)
    requires Inv(db, now) && k in Create(db, now, in_, guard).0.jobs && k !in db.jobs
    ensures JobLinked(Create(db, now, in_, guard).0, k)
  {
    EnsureStreamKeeps(db, now, in_.session);
    var (withStream, stream, _) := EnsureStream(db, in_.session);
    EnterLinks(db, now, withStream, stream.value, in_, k);
  }

  lemma StopLinks(db: Db, now: Time, id: string, guard: Option<Error>, k: JobKey)
    requires Inv(db, now) && k in Stop(db, now, id, guard).0.jobs && k !in db.jobs
    ensures JobLinked(Stop(db, now, id, guard).0, k)
  {}

  lemma FinishAddsNoJob(db: Db, now: Time, l: Lease, r: Result, next: Time, cameraVersion: Option<int>)
    ensures Finish(db, now, l, r, next, cameraVersion).0.jobs.Keys == db.jobs.Keys
  {}

  lemma EnterLinks(db: Db, now: Time, withStream: Db, stream: string, in_: CreateInput, k: JobKey)
    requires stream in withStream.streams && withStream.jobs == db.jobs && k !in db.jobs
    requires var x := withStream.streams[stream]; x.camera == in_.session.camera && x.tenant == in_.session.tenant && x.version == in_.session.version
    requires k in Enter(db, withStream, stream, in_, now).0.jobs
    ensures JobLinked(Enter(db, withStream, stream, in_, now).0, k)
  {}

  lemma StepKeepsLinks(db: Db, e: Event)
    requires Inv(db, e.now) && JobsLinked(db)
    ensures JobsLinked(Step(db, e))
  {
    StepRows(db, e);
    forall k | k in Step(db, e).jobs ensures JobLinked(Step(db, e), k) {
      if k in db.jobs {
        assert JobLinked(db, k);
        StepKeepsPayloads(db, e, k);
      } else {
        NewJobsLinked(db, e, k);
      }
    }
  }

  lemma {:induction false} RunLinks(start: Time, events: seq<Event>)
    requires InOrder(start, events)
    ensures JobsLinked(Run(EMPTY, events))
  {
    if events != [] {
      var n := |events| - 1;
      RunLinks(start, events[..n]);
      RunKeeps(EMPTY, start, events[..n]);
      TimePasses(Run(EMPTY, events[..n]), Clock(start, events[..n]), events[n].now);
      StepKeepsLinks(Run(EMPTY, events[..n]), events[n]);
    }
  }

  // ----- finish

  /** The job runs under this very lease, which has not run out. */
  predicate Current(db: Db, now: Time, l: Lease) {
    l.job in db.jobs && var j := db.jobs[l.job];
      j.status == Running && j.owner == Some(l.token) && j.leasedUntil.Some? && now < j.leasedUntil.value
  }

  predicate SomeoneWaits(db: Db, stream: string, now: Time) {
    exists id :: id in db.sessions && db.sessions[id].stream == stream && db.sessions[id].state == SessionPending && now < db.sessions[id].expires
  }

  /** A finish is taken under this condition. */
  predicate CanFinish(db: Db, now: Time, l: Lease, cameraVersion: Option<int>) {
    && Current(db, now, l) && cameraVersion == Some(l.payload.version)
    && (l.job.kind == StartJob ==> SomeoneWaits(db, l.payload.stream, now))
  }

  /** Main result. Over every run, a finish under a lease of the run is taken exactly if the
      lease is current, the camera still has the job's source version and, for a start,
      somebody whose session has not expired is waiting. None of the other checks of the code ever refuses one. */
  lemma FinishTakenIff(start: Time, events: seq<Event>, now: Time, l: Lease, r: Result, next: Time, cameraVersion: Option<int>)
    requires InOrder(start, events) && Clock(start, events) <= now && Issued(events, l)
    ensures var db := Run(EMPTY, events); var (after, error) := Finish(db, now, l, r, next, cameraVersion);
      && (CanFinish(db, now, l, cameraVersion) <==> error.None?)
      && (error.Some? ==> error == Some(ErrLeaseLost) && after == db)
  {
    var db := Run(EMPTY, events);
    RunKeeps(EMPTY, start, events);
    RunLinks(start, events);
    IssuedLeaseIsGenuine(events, l);
    TakenIff(db, now, l, r, next, cameraVersion);
  }

  lemma TakenIff(db: Db, now: Time, l: Lease, r: Result, next: Time, cameraVersion: Option<int>)
    requires Linked(db) && JobsLinked(db) && l.job in db.jobs && db.jobs[l.job].payload == l.payload
    ensures var (after, error) := Finish(db, now, l, r, next, cameraVersion);
      && (CanFinish(db, now, l, cameraVersion) <==> error.None?)
      && (error.Some? ==> error == Some(ErrLeaseLost) && after == db)
  {
    assert JobLinked(db, l.job);
    Waits(db, l.payload.stream, now);
    NoForeignSession(db, now, l);
  }

  lemma Waits(db: Db, stream: string, now: Time)
    ensures SomeoneWaits(db, stream, now) <==> HasWaiting(db, stream, now)
  {
    if SomeoneWaits(db, stream, now) {
      var id :| id in db.sessions && db.sessions[id].stream == stream && db.sessions[id].state == SessionPending && now < db.sessions[id].expires;
      assert Live(db.sessions[id], now);
    }
  }

  lemma NoForeignSession(db: Db, now: Time, l: Lease)
    requires Linked(db) && l.job in db.jobs && JobLinked(db, l.job)
    ensures forall id :: id in db.sessions && db.sessions[id].stream == db.jobs[l.job].payload.stream ==>
      Belongs(db.sessions[id], l.job.tenant, db.jobs[l.job].payload)
  {}

  /** The rows after a finish: the job has ended or waits until `next`, the stream is in
      `state`, its sessions in one of the states `from` have moved to `to`, and every other row is as it was. */
  ghost predicate Ends(db: Db, after: Db, l: Lease, status: JobStatus, next: Time, state: StreamState, from: set<SessionState>, to: SessionState) {
    var id := l.payload.stream;
    && l.job in db.jobs && id in db.streams
    && after.jobs == db.jobs[l.job := Job(db.jobs[l.job].id, l.payload, status, db.jobs[l.job].attempts, next, None, None)]
    && after.streams == db.streams[id := Stream(db.streams[id].camera, db.streams[id].tenant, db.streams[id].version, state)]
    && after.streamOf == db.streamOf && after.nextJob == db.nextJob && after.sessions.Keys == db.sessions.Keys
    && (forall x :: x in db.sessions && db.sessions[x].stream == id && db.sessions[x].state in from ==>
          after.sessions[x] == db.sessions[x].(state := to))
    && (forall x :: x in db.sessions && !(db.sessions[x].stream == id && db.sessions[x].state in from) ==>
          after.sessions[x] == db.sessions[x])
  }

  function Done(db: Db, l: Lease, status: JobStatus, next: Time): Db
    requires l.job in db.jobs
  {
    db.(jobs := db.jobs[l.job := Job(db.jobs[l.job].id, l.payload, status, db.jobs[l.job].attempts, next, None, None)])
  }

  lemma FinishWrites(start: Time, events: seq<Event>, now: Time, l: Lease, r: Result, next: Time, cameraVersion: Option<int>)
    requires InOrder(start, events) && Clock(start, events) <= now && Issued(events, l)
    requires CanFinish(Run(EMPTY, events), now, l, cameraVersion)
    ensures var db := Run(EMPTY, events); var id := l.payload.stream;
      && id in db.streams && db.jobs[l.job].payload == l.payload
      && (l.job.kind == StartJob ==> HasLive(db, id, now))
      && Step(db, FinishEvent(now, l, r, next, cameraVersion)) == Conclude(Done(db, l, FinalStatus(r), next), l.job.kind, id, r, HasLive(db, id, now))
  {
    FinishTakenIff(start, events, now, l, r, next, cameraVersion);
    IssuedLeaseIsGenuine(events, l);
    Waits(Run(EMPTY, events), l.payload.stream, now);
    FinishWritesNow(Run(EMPTY, events), now, l, r, next, cameraVersion);
  }

  lemma FinishWritesNow(db: Db, now: Time, l: Lease, r: Result, next: Time, cameraVersion: Option<int>)
    requires Finish(db, now, l, r, next, cameraVersion).1.None? && db.jobs[l.job].payload == l.payload
    ensures l.payload.stream in db.streams
    ensures Finish(db, now, l, r, next, cameraVersion).0 == Conclude(Done(db, l, FinalStatus(r), next), l.job.kind, l.payload.stream, r, HasLive(db, l.payload.stream, now))
  {}

  lemma SetAndMoveEnds(db: Db, l: Lease, status: JobStatus, next: Time, state: StreamState, from: set<SessionState>, to: SessionState)
    requires l.job in db.jobs && l.payload.stream in db.streams && db.jobs[l.job].payload == l.payload
    ensures var done := SetStream(Done(db, l, status, next), l.payload.stream, state);
      && Ends(db, done.(sessions := MoveSessions(done.sessions, l.payload.stream, from, to)), l, status, next, state, from, to)
      && (from == {} ==> Ends(db, done, l, status, next, state, from, to))
  {}

  /** A start finished as ready: the stream is ready, exactly its waiting viewers become
      ready, and the job has succeeded. */
  lemma ReadyMeansReady(start: Time, events: seq<Event>, now: Time, l: Lease, next: Time, cameraVersion: Option<int>)
    requires InOrder(start, events) && Clock(start, events) <= now && Issued(events, l)
    requires CanFinish(Run(EMPTY, events), now, l, cameraVersion)
    ensures var db := Run(EMPTY, events);
      Ends(db, Step(db, FinishEvent(now, l, ResultReady, next, cameraVersion)), l, Succeeded, next, StreamReady, {SessionPending}, SessionReady)
  {
    FinishWrites(start, events, now, l, ResultReady, next, cameraVersion);
    SetAndMoveEnds(Run(EMPTY, events), l, Succeeded, next, StreamReady, {SessionPending}, SessionReady);
  }

  /** Failed, unknown or disabled, or a start that was skipped: the stream has failed, and
      so have exactly its waiting viewers; who was watching goes on. */
  lemma FailureFailsWhoWaits(start: Time, events: seq<Event>, now: Time, l: Lease, r: Result, next: Time, cameraVersion: Option<int>)
    requires InOrder(start, events) && Clock(start, events) <= now && Issued(events, l)
    requires CanFinish(Run(EMPTY, events), now, l, cameraVersion)
    requires r == ResultFailed || r == ResultUnknown || r == ResultDisabled || (r == ResultSkipped && l.job.kind == StartJob)
    ensures var db := Run(EMPTY, events); var over := if r == ResultFailed || r == ResultUnknown then JobFailed else Cancelled;
      Ends(db, Step(db, FinishEvent(now, l, r, next, cameraVersion)), l, over, next, StreamFailed, {SessionPending}, SessionFailed)
  {
    FinishWrites(start, events, now, l, r, next, cameraVersion);
    SetAndMoveEnds(Run(EMPTY, events), l, FinalStatus(r), next, StreamFailed, {SessionPending}, SessionFailed);
  }

  /** To be tried again: the job waits until `next`, no viewer notices. */
  lemma RetryLeavesViewers(start: Time, events: seq<Event>, now: Time, l: Lease, next: Time, cameraVersion: Option<int>)
    requires InOrder(start, events) && Clock(start, events) <= now && Issued(events, l)
    requires CanFinish(Run(EMPTY, events), now, l, cameraVersion)
    ensures var db := Run(EMPTY, events); var state := if l.job.kind == StopJob then Stopping else Starting;
      Ends(db, Step(db, FinishEvent(now, l, ResultRetryable, next, cameraVersion)), l, Retryable, next, state, {}, SessionFailed)
  {
    FinishWrites(start, events, now, l, ResultRetryable, next, cameraVersion);
    SetAndMoveEnds(Run(EMPTY, events), l, Retryable, next, if l.job.kind == StopJob then Stopping else Starting, {}, SessionFailed);
  }

  /** A stop that was skipped, or done: nobody is watching, so the stream is stopped; only a
      stop that was done closes the sessions that had expired unnoticed. */
  lemma StopEndsStopped(start: Time, events: seq<Event>, now: Time, l: Lease, r: Result, next: Time, cameraVersion: Option<int>)
    requires InOrder(start, events) && Clock(start, events) <= now && Issued(events, l) && l.job.kind == StopJob
    requires CanFinish(Run(EMPTY, events), now, l, cameraVersion) && (r == ResultSkipped || r == ResultStopped)
    ensures var db := Run(EMPTY, events); var after := Step(db, FinishEvent(now, l, r, next, cameraVersion));
      && NobodyWatches(db, l.payload.stream, now)
      && (r == ResultSkipped ==> Ends(db, after, l, Cancelled, next, Stopped, {}, Revoked))
      && (r == ResultStopped ==> Ends(db, after, l, Succeeded, next, Stopped, {SessionPending, SessionReady}, Revoked))
  {
    FinishWrites(start, events, now, l, r, next, cameraVersion);
    OutstandingStopFences(start, events, now, l.job);
    NoLive(Run(EMPTY, events), l.payload.stream, now);
    SetAndMoveEnds(Run(EMPTY, events), l, FinalStatus(r), next, Stopped, if r == ResultSkipped then {} else {SessionPending, SessionReady}, Revoked);
  }

  /** Every session of the stream is closed or has expired. */
  ghost predicate NobodyWatches(db: Db, stream: string, now: Time) {
    forall x :: x in db.sessions && db.sessions[x].stream == stream && Open(db.sessions[x].state) ==> db.sessions[x].expires <= now
  }

  lemma NoLive(db: Db, stream: string, now: Time)
    ensures !HasLive(db, stream, now) ==> NobodyWatches(db, stream, now)
  {
    forall x | !HasLive(db, stream, now) && x in db.sessions && db.sessions[x].stream == stream && Open(db.sessions[x].state) ensures db.sessions[x].expires <= now {
      assert !Live(db.sessions[x], now);
    }
  }

  /** A start that reports itself stopped: somebody is waiting for it, so the stream counts as ready, and nobody is told. */
  lemma StartReportedStopped(start: Time, events: seq<Event>, now: Time, l: Lease, next: Time, cameraVersion: Option<int>)
    requires InOrder(start, events) && Clock(start, events) <= now && Issued(events, l) && l.job.kind == StartJob
    requires CanFinish(Run(EMPTY, events), now, l, cameraVersion)
    ensures var db := Run(EMPTY, events);
      Ends(db, Step(db, FinishEvent(now, l, ResultStopped, next, cameraVersion)), l, Succeeded, next, StreamReady, {}, SessionReady)
  {
    FinishWrites(start, events, now, l, ResultStopped, next, cameraVersion);
    SetAndMoveEnds(Run(EMPTY, events), l, Succeeded, next, StreamReady, {}, SessionReady);
  }

  // ----- claim and revalidate

  ghost predicate ClaimTakes(db: Db, after: Db, now: Time, k: JobKey, lease: Time, token: string)
    requires k in db.jobs
  {
    var j, id := db.jobs[k], db.jobs[k].payload.stream;
    var takes := j.attempts < 6
      && (((j.status == Scheduled || j.status == Retryable) && j.availableAt <= now)
          || (j.status == Running && j.leasedUntil.Some? && j.leasedUntil.value <= now));
    if !takes then after == db
    else
      && after.jobs == db.jobs[k := Job(j.id, j.payload, Running, j.attempts + 1, j.availableAt, Some(now + lease), Some(token))]
      && after.sessions == db.sessions && after.streamOf == db.streamOf && after.nextJob == db.nextJob
      && id in db.streams && after.streams.Keys == db.streams.Keys
      && (forall x :: x in db.streams && x != id ==> after.streams[x] == db.streams[x])
      && after.streams[id] == db.streams[id].(state :=
           if k.kind == StartJob && (db.streams[id].state == StreamPending || db.streams[id].state == StreamFailed || db.streams[id].state == StreamUnknown)
           then Starting else db.streams[id].state)
  }

  lemma ClaimWrites(db: Db, now: Time, k: JobKey, lease: Time, token: string)
    requires k in db.jobs && db.jobs[k].payload.stream in db.streams
    ensures ClaimTakes(db, Step(db, ClaimEvent(now, k, lease, token)), now, k, lease, token)
  {}

  /** A claim leases the job for as long as it asks, spends one attempt, and sets the stream
      of a start going unless it is ready, being stopped or stopped. */
  lemma ClaimOutcome(start: Time, events: seq<Event>, now: Time, k: JobKey, lease: Time, token: string)
    requires InOrder(start, events) && Clock(start, events) <= now && k in Run(EMPTY, events).jobs
    ensures ClaimTakes(Run(EMPTY, events), Step(Run(EMPTY, events), ClaimEvent(now, k, lease, token)), now, k, lease, token)
  {
    RunLinks(start, events);
    assert JobLinked(Run(EMPTY, events), k);
    ClaimWrites(Run(EMPTY, events), now, k, lease, token);
  }

  /** Revalidating never changes a row: over every run it only tells whether the lease is
      current, and what the camera and the caller's rights say. */
  lemma RevalidateOnlyTells(start: Time, events: seq<Event>, now: Time, l: Lease, rights: Authorization)
    requires InOrder(start, events) && Clock(start, events) <= now && Issued(events, l)
    ensures var db := Run(EMPTY, events); var (after, answer) := Revalidate(db, now, l, rights);
      && after == db
      && (!Current(db, now, l) ==> answer == Lost(ErrLeaseLost))
      && (Current(db, now, l) && rights.Lost? ==> answer == rights)
      && (Current(db, now, l) && rights.Authorized? ==> answer == Authorized(rights.active, rights.sourceCurrent, false))
  {
    var db := Run(EMPTY, events);
    IssuedLeaseIsGenuine(events, l);
    RunLinks(start, events);
    assert JobLinked(db, l.job);
    if Holds(db, now, l) && rights.Authorized? && l.job.kind == StopJob { FenceNeverSupersedes(start, events, now, l, rights); }
  }

  // ----- create and stop

  function StartKey(in_: CreateInput): JobKey { JobKey(in_.session.tenant, StartJob, in_.startKey) }

  /** The stream of the camera and version can be joined, or made. */
  ghost predicate Joinable(db: Db, s: Session) {
    if (s.camera, s.version) in db.streamOf then
      var id := db.streamOf[(s.camera, s.version)];
      id in db.streams && db.streams[id].tenant == s.tenant && db.streams[id].state != Stopping
    else s.stream !in db.streams
  }

  ghost function StreamFor(db: Db, s: Session): string {
    if (s.camera, s.version) in db.streamOf then db.streamOf[(s.camera, s.version)] else s.stream
  }

  /** The start job of that key, if it is stored, is about this camera, version and stream. */
  ghost predicate StartFits(db: Db, in_: CreateInput) {
    StartKey(in_) in db.jobs ==>
      var p := db.jobs[StartKey(in_)].payload;
      p.camera == in_.session.camera && p.version == in_.session.version && p.stream == StreamFor(db, in_.session)
  }

  /** A new viewer is admitted exactly if nothing refuses the caller, the stream can be joined, the
      token is unused and the start job fits; whoever is refused changes nothing. */
  lemma AdmittedIff(db: Db, now: Time, in_: CreateInput, guard: Option<Error>)
    requires Inv(db, now) && in_.id !in db.sessions
    ensures var (after, r) := Create(db, now, in_, guard);
      && (r.Granted? <==> guard.None? && Joinable(db, in_.session) && !TokenTaken(db, in_.session.ticket.tokenHash) && StartFits(db, in_))
      && (r.Denied? ==> after == db)
      && (r.Granted? ==> in_.id in after.sessions && after.sessions[in_.id] == r.session)
  {}

  /** The rows after a new viewer is admitted: its session waits for the start, or is ready at
      once if the start had succeeded and the stream is ready; a start job is stored if none was,
      left alone while it is under way, and followed by one of this session's own if it had ended. */
  ghost predicate Admitted(db: Db, after: Db, now: Time, in_: CreateInput) {
    var id, k := StreamFor(db, in_.session), StartKey(in_);
    var own := JobKey(k.tenant, StartJob, in_.startKey + ":" + in_.id);
    var payload := Payload(in_.id, in_.session.camera, in_.session.version, id);
    var readyNow := k in db.jobs && db.jobs[k].status == Succeeded && id in db.streams && db.streams[id].state == StreamReady;
    var startsAgain := k in db.jobs && !Outstanding(db.jobs[k]) && !readyNow;
    && after.sessions == db.sessions[in_.id := in_.session.(stream := id, state := if readyNow then SessionReady else SessionPending)]
    && (k !in db.jobs ==> after.jobs == db.jobs[k := Job(db.nextJob, payload, Scheduled, 0, now, None, None)])
    && (k in db.jobs && !startsAgain ==> after.jobs == db.jobs)
    && (startsAgain ==> after.jobs == (if own in db.jobs then db.jobs else db.jobs[own := Job(db.nextJob, payload, Scheduled, 0, now, None, None)]))
    && id in after.streams && after.streams.Keys == db.streams.Keys + {id}
    && (forall x :: x in db.streams && x != id ==> after.streams[x] == db.streams[x])
    && after.streams[id].camera == in_.session.camera && after.streams[id].version == in_.session.version && after.streams[id].tenant == in_.session.tenant
    && after.streams[id].state == (if id !in db.streams || startsAgain then StreamPending else db.streams[id].state)
  }

  lemma AdmittedMeans(start: Time, events: seq<Event>, now: Time, in_: CreateInput, guard: Option<Error>)
    requires InOrder(start, events) && Clock(start, events) <= now && in_.id !in Run(EMPTY, events).sessions
    requires Create(Run(EMPTY, events), now, in_, guard).1.Granted?
    ensures Admitted(Run(EMPTY, events), Step(Run(EMPTY, events), CreateEvent(now, in_, guard)), now, in_)
  {
    var db := Run(EMPTY, events);
    RunKeeps(EMPTY, start, events);
    TimePasses(db, Clock(start, events), now);
    RunLinks(start, events);
    if StartKey(in_) in db.jobs { assert JobLinked(db, StartKey(in_)); }
    AdmittedWrites(db, now, in_, guard);
  }

  lemma AdmittedWrites(db: Db, now: Time, in_: CreateInput, guard: Option<Error>)
    requires Inv(db, now) && in_.id !in db.sessions && Create(db, now, in_, guard).1.Granted?
    requires StartKey(in_) in db.jobs ==> db.jobs[StartKey(in_)].payload.stream in db.streams
    ensures Admitted(db, Create(db, now, in_, guard).0, now, in_)
  {
    AdmittedIff(db, now, in_, guard);
    EnsureStreamKeeps(db, now, in_.session);
    var (withStream, stream, _) := EnsureStream(db, in_.session);
    EnterAdmits(db, now, withStream, stream.value, in_);
  }

  lemma EnterAdmits(db: Db, now: Time, withStream: Db, stream: string, in_: CreateInput)
    requires in_.id !in db.sessions && stream == StreamFor(db, in_.session)
    requires stream in withStream.streams && withStream.jobs == db.jobs && withStream.sessions == db.sessions && withStream.nextJob == db.nextJob
    requires var x := withStream.streams[stream]; x.camera == in_.session.camera && x.tenant == in_.session.tenant && x.version == in_.session.version
    requires withStream.streams == db.streams[stream := withStream.streams[stream]]
    requires withStream.streams[stream] == if stream in db.streams then db.streams[stream] else Stream(in_.session.camera, in_.session.tenant, in_.session.version, StreamPending)
    requires StartKey(in_) in db.jobs ==> stream in db.streams
    requires Enter(db, withStream, stream, in_, now).1.Granted?
    ensures Admitted(db, Enter(db, withStream, stream, in_, now).0, now, in_)
  {}

  lemma {:induction false} RowsStayAlong(db: Db, start: Time, events: seq<Event>)
    requires Inv(db, start) && InOrder(start, events)
    ensures RowsStay(db, Run(db, events))
  {
    if events != [] {
      var n := |events| - 1;
      var before := Run(db, events[..n]);
      RowsStayAlong(db, start, events[..n]);
      RunKeeps(db, start, events[..n]);
      TimePasses(before, Clock(start, events[..n]), events[n].now);
      StepRows(before, events[n]);
      RowsStayTwice(db, before, Step(before, events[n]));
    }
  }

  lemma RowsStayTwice(a: Db, b: Db, c: Db)
    ensures RowsStay(a, b) && RowsStay(b, c) ==> RowsStay(a, c)
  {}

  /** Main result. However a run goes on after a viewer was admitted, the very same request made
      again changes nothing; it is granted, with the session as it is by then, if and only if it
      proposed the stream that the viewer was put on, and refused as a conflict otherwise. */
  lemma RepeatGrantedIff(start: Time, events: seq<Event>, now: Time, in_: CreateInput, more: seq<Event>, later: Time)
    requires InOrder(start, events) && Clock(start, events) <= now && InOrder(now, more)
    requires in_.id !in Run(EMPTY, events).sessions && Create(Run(EMPTY, events), now, in_, None).1.Granted?
    ensures var db := Run(EMPTY, events); var after := Run(Step(db, CreateEvent(now, in_, None)), more);
      && in_.id in after.sessions
      && Create(after, later, in_, None) ==
           (after, if in_.session.stream == StreamFor(db, in_.session) then Granted(after.sessions[in_.id]) else Denied(ErrConflict))
  {
    var db := Run(EMPTY, events);
    var admitted := Step(db, CreateEvent(now, in_, None));
    AdmittedMeans(start, events, now, in_, None);
    RunKeeps(EMPTY, start, events);
    TimePasses(db, Clock(start, events), now);
    StepKeeps(db, CreateEvent(now, in_, None));
    RowsStayAlong(admitted, now, more);
    Repeats(Run(admitted, more), later, in_, StreamFor(db, in_.session));
  }

  lemma Repeats(db: Db, now: Time, in_: CreateInput, stream: string)
    requires in_.id in db.sessions && db.sessions[in_.id] == in_.session.(stream := stream, state := db.sessions[in_.id].state)
    ensures Create(db, now, in_, None) == (db, if in_.session.stream == stream then Granted(db.sessions[in_.id]) else Denied(ErrConflict))
  {}

  /** A viewer who leaves has its session closed and no other; its stream goes to stopping, and
      a stop job is stored unless one was, exactly if no viewer that has not expired remains. */
  lemma LeavingMeans(start: Time, events: seq<Event>, now: Time, id: string)
    requires InOrder(start, events) && Clock(start, events) <= now
    requires var db := Run(EMPTY, events); id in db.sessions && Open(db.sessions[id].state)
    ensures var db := Run(EMPTY, events); var s := db.sessions[id];
      var after := Step(db, StopEvent(now, id, None)); var k := JobKey(s.tenant, StopJob, s.stream);
      var remains := exists x :: x in db.sessions && x != id && db.sessions[x].stream == s.stream && Live(db.sessions[x], now);
      && after.sessions == db.sessions[id := s.(state := Revoked)]
      && (remains ==> after.streams == db.streams && after.jobs == db.jobs)
      && (!remains ==> s.stream in db.streams && after.streams == db.streams[s.stream := db.streams[s.stream].(state := Stopping)])
      && (!remains && k in db.jobs ==> after.jobs == db.jobs)
      && (!remains && k !in db.jobs ==>
            after.jobs == db.jobs[k := Job(db.nextJob, Payload(id, s.camera, s.version, s.stream), Scheduled, 0, now, None, None)])
  {
    RunKeeps(EMPTY, start, events);
    var db := Run(EMPTY, events);
    LastViewerIff(db, now, id);
  }

  lemma LastViewerIff(db: Db, now: Time, id: string)
    requires id in db.sessions
    ensures LastViewer(db, now, id) <==>
      !exists x :: x in db.sessions && x != id && db.sessions[x].stream == db.sessions[id].stream && Live(db.sessions[x], now)
  {
    var s := db.sessions[id];
    var left := db.(sessions := db.sessions[id := s.(state := Revoked)]);
    forall x | x in left.sessions && left.sessions[x].stream == s.stream && Live(left.sessions[x], now)
      ensures x != id && x in db.sessions && db.sessions[x].stream == s.stream && Live(db.sessions[x], now) {}
    forall x | x in db.sessions && x != id && db.sessions[x].stream == s.stream && Live(db.sessions[x], now)
      ensures HasLive(left, s.stream, now) { assert left.sessions[x] == db.sessions[x]; }
  }
}
