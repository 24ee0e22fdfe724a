/** The fence between stopping a provider and admitting a viewer, over every run of
    create, stop, claim, revalidate and finish with a clock that never goes back. */
module VideoFence {
  import opened Prelude
  import opened VideoTables

  datatype Event =
    | CreateEvent(now: Time, in_: CreateInput, guard: Option<Error>)
    | StopEvent(now: Time, session: string, guard: Option<Error>)
    | ClaimEvent(now: Time, k: JobKey, lease: Time, token: string)
    | RevalidateEvent(now: Time, l: Lease, rights: Authorization)
    | FinishEvent(now: Time, l: Lease, r: Result, next: Time, cameraVersion: Option<int>)

  ghost function Step(db: Db, e: Event): Db {
    match e
    case CreateEvent(now, in_, guard) => Create(db, now, in_, guard).0
    case StopEvent(now, id, guard) => Stop(db, now, id, guard).0
    case ClaimEvent(now, k, lease, token) => if k in db.jobs && Claimable(db.jobs[k], now) then Claim(db, now, k, lease, token).0 else db
    case RevalidateEvent(now, l, rights) => Revalidate(db, now, l, rights).0
    case FinishEvent(now, l, r, next, cameraVersion) => Finish(db, now, l, r, next, cameraVersion).0
  }

  ghost function Run(db: Db, events: seq<Event>): Db {
    if events == [] then db else Step(Run(db, events[..|events| - 1]), events[|events| - 1])
  }

  predicate InOrder(start: Time, events: seq<Event>) {
    && (forall i :: 0 <= i < |events| ==> start <= events[i].now)
    && (forall i, j :: 0 <= i < j < |events| ==> events[i].now <= events[j].now)
  }

  function Clock(start: Time, events: seq<Event>): Time {
    if events == [] then start else events[|events| - 1].now
  }

  // ----- invariant

  /** Rows refer to each other as the foreign keys and unique indexes demand. */
  ghost predicate Linked(db: Db) {
    && (forall id :: id in db.sessions ==>
          var s := db.sessions[id];
          s.stream in db.streams && db.streams[s.stream].camera == s.camera && db.streams[s.stream].tenant == s.tenant
          && db.streams[s.stream].version == s.version)
    && (forall id :: id in db.streams ==>
          var x := db.streams[id]; (x.camera, x.version) in db.streamOf && db.streamOf[(x.camera, x.version)] == id)
    && (forall ix :: ix in db.streamOf ==>
          db.streamOf[ix] in db.streams && (db.streams[db.streamOf[ix]].camera, db.streams[db.streamOf[ix]].version) == ix)
  }

  /** A stop job belongs to the stream it is keyed by. */
  ghost predicate StopJobOk(db: Db, k: JobKey)
    requires k in db.jobs
  {
    var p := db.jobs[k].payload;
    k.kind == StopJob ==>
      && p.stream == k.key && k.key in db.streams && db.streams[k.key].tenant == k.tenant
      && db.streams[k.key].camera == p.camera && db.streams[k.key].version == p.version
      && (Outstanding(db.jobs[k]) ==> db.streams[k.key].state == Stopping)
  }

  ghost predicate Fenced(db: Db, now: Time) {
    forall id :: id in db.streams && db.streams[id].state == Stopping ==> !HasLive(db, id, now)
  }

  ghost predicate Inv(db: Db, now: Time) {
    Linked(db) && Fenced(db, now) && forall k :: k in db.jobs ==> StopJobOk(db, k)
  }

  lemma TimePasses(db: Db, now: Time, later: Time)
    requires Inv(db, now) && now <= later
    ensures Inv(db, later)
  {
    assert forall s :: s in db.sessions && Live(db.sessions[s], later) ==> Live(db.sessions[s], now);
    assert forall id :: HasLive(db, id, later) ==> HasLive(db, id, now);
  }

  /** No stop job of `id` is still outstanding. */
  ghost predicate Released(db: Db, id: string)
    requires id in db.streams
  {
    var k := JobKey(db.streams[id].tenant, StopJob, id);
    k in db.jobs ==> !Outstanding(db.jobs[k])
  }

  lemma SetStreamKeeps(db: Db, now: Time, id: string, state: StreamState)
    requires Inv(db, now) && id in db.streams
    requires if state == Stopping then !HasLive(db, id, now) else Released(db, id)
    ensures Inv(SetStream(db, id, state), now)
  {
    var db' := SetStream(db, id, state);
    assert forall x :: HasLive(db', x, now) <==> HasLive(db, x, now);
    forall k | k in db'.jobs ensures StopJobOk(db', k) { assert StopJobOk(db, k); }
  }

  lemma InsertJobKeeps(db: Db, now: Time, k: JobKey, payload: Payload)
    requires Inv(db, now)
    requires k.kind == StopJob && k !in db.jobs ==>
      && payload.stream == k.key && k.key in db.streams && db.streams[k.key].tenant == k.tenant
      && db.streams[k.key].camera == payload.camera && db.streams[k.key].version == payload.version
      && db.streams[k.key].state == Stopping
    ensures Inv(InsertJob(db, k, payload, now), now)
  {
    var db' := InsertJob(db, k, payload, now);
    assert forall x :: HasLive(db', x, now) <==> HasLive(db, x, now);
    forall j | j in db'.jobs ensures StopJobOk(db', j) { if j in db.jobs { assert StopJobOk(db, j); } }
  }

  lemma PutSessionKeeps(db: Db, now: Time, id: string, s: Session)
    requires Inv(db, now) && s.stream in db.streams
    requires db.streams[s.stream].camera == s.camera && db.streams[s.stream].tenant == s.tenant && db.streams[s.stream].version == s.version
    requires db.streams[s.stream].state == Stopping ==> !Live(s, now)
    ensures Inv(db.(sessions := db.sessions[id := s]), now)
  {
    var db' := db.(sessions := db.sessions[id := s]);
    assert forall x :: HasLive(db', x, now) ==> HasLive(db, x, now) || (x == s.stream && Live(s, now));
    forall k | k in db'.jobs ensures StopJobOk(db', k) { assert StopJobOk(db, k); }
  }

  lemma NewStreamKeeps(db: Db, now: Time, s: Session)
    requires Inv(db, now) && (s.camera, s.version) !in db.streamOf && s.stream !in db.streams
    ensures Inv(EnsureStream(db, s).0, now)
  {
    var db' := EnsureStream(db, s).0;
    assert forall x :: HasLive(db', x, now) <==> HasLive(db, x, now);
    forall k | k in db'.jobs ensures StopJobOk(db', k) { assert StopJobOk(db, k); }
  }

  lemma EnsureStreamKeeps(db: Db, now: Time, s: Session)
    requires Inv(db, now)
    ensures var (db', stream, _) := EnsureStream(db, s);
      && Inv(db', now) && db'.sessions == db.sessions && db'.jobs == db.jobs
      && (stream.Some? ==>
            && stream.value in db'.streams && db'.streams[stream.value].camera == s.camera
            && db'.streams[stream.value].tenant == s.tenant && db'.streams[stream.value].version == s.version
            && db'.streams[stream.value].state != Stopping)
  {
    if (s.camera, s.version) !in db.streamOf && s.stream !in db.streams { NewStreamKeeps(db, now, s); }
  }

  lemma NotStoppingIsReleased(db: Db, now: Time, id: string)
    requires Inv(db, now) && id in db.streams && db.streams[id].state != Stopping
    ensures Released(db, id)
  {
    var k := JobKey(db.streams[id].tenant, StopJob, id);
    if k in db.jobs { assert StopJobOk(db, k); }
  }

  lemma JoinKeeps(db: Db, now: Time, in_: CreateInput, stream: string)
    requires Inv(db, now) && in_.id in db.sessions && stream in db.streams && db.sessions[in_.id].stream == stream
    requires JobKey(in_.session.tenant, StartJob, in_.startKey) in db.jobs && db.streams[stream].state != Stopping
    ensures Inv(JoinStartJob(db, in_, stream, now).0, now)
  {
    var mine := db.sessions[in_.id];
    PutSessionKeeps(db, now, in_.id, mine.(state := SessionReady));
    NotStoppingIsReleased(db, now, stream);
    SetStreamKeeps(db, now, stream, StreamPending);
    InsertJobKeeps(SetStream(db, stream, StreamPending), now,
      JobKey(in_.session.tenant, StartJob, in_.startKey + ":" + in_.id), StartPayload(in_, stream));
  }

  lemma EnterKeeps(db: Db, now: Time, withStream: Db, stream: string, in_: CreateInput)
    requires Inv(db, now) && Inv(withStream, now) && stream in withStream.streams && withStream.streams[stream].state != Stopping
    requires var x := withStream.streams[stream]; x.camera == in_.session.camera && x.tenant == in_.session.tenant && x.version == in_.session.version
    ensures Inv(Enter(db, withStream, stream, in_, now).0, now)
  {
    var mine := in_.session.(stream := stream, state := SessionPending);
    PutSessionKeeps(withStream, now, in_.id, mine);
    var withSession := withStream.(sessions := withStream.sessions[in_.id := mine]);
    var k := JobKey(mine.tenant, StartJob, in_.startKey);
    if k !in withSession.jobs {
      InsertJobKeeps(withSession, now, k, StartPayload(in_, stream));
    } else {
      JoinKeeps(withSession, now, in_, stream);
    }
  }

  lemma CreateKeeps(db: Db, now: Time, in_: CreateInput, guard: Option<Error>)
    requires Inv(db, now)
    ensures Inv(Create(db, now, in_, guard).0, now)
  {
    EnsureStreamKeeps(db, now, in_.session);
    var (withStream, stream, _) := EnsureStream(db, in_.session);
    if stream.Some? { EnterKeeps(db, now, withStream, stream.value, in_); }
  }

  lemma StopKeeps(db: Db, now: Time, id: string, guard: Option<Error>)
    requires Inv(db, now)
    ensures Inv(Stop(db, now, id, guard).0, now)
  {
    if guard.None? && id in db.sessions && Open(db.sessions[id].state) {
      var s := db.sessions[id];
      PutSessionKeeps(db, now, id, s.(state := Revoked));
      var left := db.(sessions := db.sessions[id := s.(state := Revoked)]);
      if LastViewer(db, now, id) {
        SetStreamKeeps(left, now, s.stream, Stopping);
        InsertJobKeeps(SetStream(left, s.stream, Stopping), now, StopKey(s), Payload(id, s.camera, s.version, s.stream));
      }
    }
  }

  lemma ClaimKeeps(db: Db, now: Time, k: JobKey, lease: Time, token: string)
    requires Inv(db, now) && k in db.jobs && Claimable(db.jobs[k], now)
    ensures Inv(Claim(db, now, k, lease, token).0, now)
  {
    var j' := ClaimedJob(db.jobs[k], now + lease, token);
    UpdateJobKeeps(db, now, k, j');
    StartedKeeps(db.(jobs := db.jobs[k := j']), now, k.kind, j'.payload.stream);
  }

  lemma StartedKeeps(db: Db, now: Time, kind: JobKind, stream: string)
    requires Inv(db, now)
    ensures Inv(Started(db, kind, stream), now)
  {
    if Started(db, kind, stream) != db {
      NotStoppingIsReleased(db, now, stream);
      SetStreamKeeps(db, now, stream, Starting);
    }
  }

  lemma RevalidateKeeps(db: Db, now: Time, l: Lease, rights: Authorization)
    requires Inv(db, now)
    ensures Inv(Revalidate(db, now, l, rights).0, now)
  {
    if Revalidate(db, now, l, rights).0 != db {
      var id := l.payload.stream;
      assert forall s :: s in db.sessions && db.sessions[s].stream == id ==> Watches(db.sessions[s], l);
      SetStreamKeeps(db, now, id, Stopping);
    }
  }

  lemma MoveSessionsKeeps(db: Db, now: Time, stream: string, from: set<SessionState>, to: SessionState)
    requires Inv(db, now) && stream in db.streams
    requires db.streams[stream].state == Stopping ==> !Open(to)
    ensures Inv(db.(sessions := MoveSessions(db.sessions, stream, from, to)), now)
  {
    var db' := db.(sessions := MoveSessions(db.sessions, stream, from, to));
    assert forall x :: HasLive(db', x, now) ==> HasLive(db, x, now) || (x == stream && Open(to));
    forall k | k in db'.jobs ensures StopJobOk(db', k) { assert StopJobOk(db, k); }
  }

  /** A job that ends, or a start job whatever becomes of it, holds back no stream. */
  lemma UpdateJobKeeps(db: Db, now: Time, k: JobKey, j: Job)
    requires Inv(db, now) && k in db.jobs && j.payload == db.jobs[k].payload
    requires k.kind == StopJob && Outstanding(j) ==> Outstanding(db.jobs[k])
    ensures Inv(db.(jobs := db.jobs[k := j]), now)
  {
    var db' := db.(jobs := db.jobs[k := j]);
    assert forall x :: HasLive(db', x, now) <==> HasLive(db, x, now);
    forall o | o in db'.jobs ensures StopJobOk(db', o) { assert StopJobOk(db, o) && StopJobOk(db, k); }
  }

  lemma FinishKeeps(db: Db, now: Time, l: Lease, r: Result, next: Time, cameraVersion: Option<int>)
    requires Inv(db, now)
    ensures Inv(Finish(db, now, l, r, next, cameraVersion).0, now)
  {
    if Finish(db, now, l, r, next, cameraVersion).1.None? {
      var j := db.jobs[l.job];
      var j' := j.(status := FinalStatus(r), availableAt := next, leasedUntil := None, owner := None);
      UpdateJobKeeps(db, now, l.job, j');
      var done := db.(jobs := db.jobs[l.job := j']);
      var active := HasLive(db, j.payload.stream, now);
      assert active <==> HasLive(done, j.payload.stream, now);
      assert StopJobOk(db, l.job);
      if l.job.kind == StopJob {
        assert db.streams[j.payload.stream].state == Stopping;
        ConcludeStopKeeps(done, now, j.payload.stream, r, active);
      } else {
        assert HasWaiting(db, j.payload.stream, now);
        assert active;
        NotStoppingIsReleased(done, now, j.payload.stream);
        ConcludeStartKeeps(done, now, j.payload.stream, r);
      }
    }
  }

  lemma ConcludeStopKeeps(db: Db, now: Time, stream: string, r: Result, active: bool)
    requires Inv(db, now) && stream in db.streams && db.streams[stream].state == Stopping
    requires active <==> HasLive(db, stream, now)
    requires r != ResultRetryable ==> Released(db, stream)
    ensures Inv(Conclude(db, StopJob, stream, r, active), now)
  {
    if r == ResultRetryable {
      SetStreamKeeps(db, now, stream, Stopping);
    } else {
      ConcludeOtherwiseKeeps(db, now, StopJob, stream, r, active);
    }
  }

  lemma ConcludeStartKeeps(db: Db, now: Time, stream: string, r: Result)
    requires Inv(db, now) && stream in db.streams && Released(db, stream)
    ensures Inv(Conclude(db, StartJob, stream, r, true), now)
  {
    if r == ResultRetryable {
      SetStreamKeeps(db, now, stream, Starting);
    } else {
      ConcludeOtherwiseKeeps(db, now, StartJob, stream, r, true);
    }
  }

  lemma ConcludeOtherwiseKeeps(db: Db, now: Time, kind: JobKind, stream: string, r: Result, active: bool)
    requires Inv(db, now) && stream in db.streams && Released(db, stream) && r != ResultRetryable
    ensures Inv(Conclude(db, kind, stream, r, active), now)
  {
    match r
    case ResultReady => SetAndMoveKeeps(db, now, stream, StreamReady, {SessionPending}, SessionReady);
    case ResultStopped =>
      if active {
        SetStreamKeeps(db, now, stream, StreamReady);
      } else {
        SetAndMoveKeeps(db, now, stream, Stopped, {SessionPending, SessionReady}, Revoked);
      }
    case _ =>
      if kind == StopJob && r == ResultSkipped {
        SetStreamKeeps(db, now, stream, if active then StreamReady else Stopped);
      } else {
        SetAndMoveKeeps(db, now, stream, StreamFailed, {SessionPending}, SessionFailed);
      }
  }

  lemma SetAndMoveKeeps(db: Db, now: Time, stream: string, state: StreamState, from: set<SessionState>, to: SessionState)
    requires Inv(db, now) && stream in db.streams && Released(db, stream) && state != Stopping
    ensures Inv(SetStream(db, stream, state).(sessions := MoveSessions(db.sessions, stream, from, to)), now)
  {
    SetStreamKeeps(db, now, stream, state);
    MoveSessionsKeeps(SetStream(db, stream, state), now, stream, from, to);
  }

  lemma StepKeeps(db: Db, e: Event)
    requires Inv(db, e.now)
    ensures Inv(Step(db, e), e.now)
  {
    match e
    case CreateEvent(now, in_, guard) => CreateKeeps(db, now, in_, guard);
    case StopEvent(now, id, guard) => StopKeeps(db, now, id, guard);
    case ClaimEvent(now, k, lease, token) =>
      if k in db.jobs && Claimable(db.jobs[k], now) { ClaimKeeps(db, now, k, lease, token); }
    case RevalidateEvent(now, l, rights) => RevalidateKeeps(db, now, l, rights);
    case FinishEvent(now, l, r, next, cameraVersion) => FinishKeeps(db, now, l, r, next, cameraVersion);
  }

  lemma {:induction false} RunKeeps(db: Db, start: Time, events: seq<Event>)
    requires Inv(db, start) && InOrder(start, events)
    ensures Inv(Run(db, events), Clock(start, events))
  {
    if events != [] {
      var n := |events| - 1;
      RunKeeps(db, start, events[..n]);
      TimePasses(Run(db, events[..n]), Clock(start, events[..n]), events[n].now);
      StepKeeps(Run(db, events[..n]), events[n]);
    }
  }

  // ----- main results

  /** In every reachable state, at the time of the last transaction or any later
      one: a stream with an outstanding stop job is `stopping` and nobody is watching it. */
  lemma OutstandingStopFences(start: Time, events: seq<Event>, now: Time, k: JobKey)
    requires InOrder(start, events) && Clock(start, events) <= now
    requires var db := Run(EMPTY, events); k in db.jobs && k.kind == StopJob && Outstanding(db.jobs[k])
    ensures var db := Run(EMPTY, events);
      && k.key in db.streams && db.streams[k.key].tenant == k.tenant && db.jobs[k].payload.stream == k.key
      && db.streams[k.key].state == Stopping && !HasLive(db, k.key, now)
  {
    RunKeeps(EMPTY, start, events);
    TimePasses(Run(EMPTY, events), Clock(start, events), now);
    assert StopJobOk(Run(EMPTY, events), k);
  }

  /** The lease is one that a claim of this run handed out. */
  ghost predicate Issued(events: seq<Event>, l: Lease) {
    exists i :: 0 <= i < |events| && IssuedAt(events, i, l)
  }

  ghost predicate IssuedAt(events: seq<Event>, i: nat, l: Lease) {
    && i < |events|
    && var db, e := Run(EMPTY, events[..i]), events[i];
    e.ClaimEvent? && e.k in db.jobs && Claimable(db.jobs[e.k], e.now) && Claim(db, e.now, e.k, e.lease, e.token).1 == l
  }

  /** Jobs are never deleted and keep what they are about. */
  lemma StepKeepsPayloads(db: Db, e: Event, k: JobKey)
    requires k in db.jobs
    ensures k in Step(db, e).jobs && Step(db, e).jobs[k].payload == db.jobs[k].payload
  {
    match e
    case CreateEvent(now, in_, guard) => CreateKeepsJobs(db, now, in_, guard, k);
    case FinishEvent(now, l, r, next, cameraVersion) => FinishKeepsOtherJobs(db, now, l, r, next, cameraVersion, k);
    case _ =>
  }

  lemma EnterKeepsJobs(db: Db, now: Time, withStream: Db, stream: string, in_: CreateInput, k: JobKey)
    requires k in db.jobs && withStream.jobs == db.jobs && stream in withStream.streams
    ensures k in Enter(db, withStream, stream, in_, now).0.jobs && Enter(db, withStream, stream, in_, now).0.jobs[k] == db.jobs[k]
  {}

  lemma CreateKeepsJobs(db: Db, now: Time, in_: CreateInput, guard: Option<Error>, k: JobKey)
    requires k in db.jobs
    ensures k in Create(db, now, in_, guard).0.jobs && Create(db, now, in_, guard).0.jobs[k] == db.jobs[k]
  {
    var (withStream, stream, _) := EnsureStream(db, in_.session);
    if stream.Some? { EnterKeepsJobs(db, now, withStream, stream.value, in_, k); }
  }

  lemma FinishKeepsOtherJobs(db: Db, now: Time, l: Lease, r: Result, next: Time, cameraVersion: Option<int>, k: JobKey)
    requires k in db.jobs
    ensures var after := Finish(db, now, l, r, next, cameraVersion).0;
      k in after.jobs && after.jobs[k].payload == db.jobs[k].payload && (k != l.job ==> after.jobs[k] == db.jobs[k])
  {
    if Finish(db, now, l, r, next, cameraVersion).1.None? {
      var j := db.jobs[l.job];
      ConcludeKeepsJobs(db.(jobs := db.jobs[l.job := j.(status := FinalStatus(r), availableAt := next, leasedUntil := None, owner := None)]),
                        l.job.kind, j.payload.stream, r, HasLive(db, j.payload.stream, now));
    }
  }

  lemma ConcludeKeepsJobs(db: Db, kind: JobKind, stream: string, r: Result, active: bool)
    requires stream in db.streams
    ensures Conclude(db, kind, stream, r, active).jobs == db.jobs
    ensures var after := Conclude(db, kind, stream, r, active);
      forall x :: x in db.streams && x != stream ==> x in after.streams && after.streams[x] == db.streams[x]
  {}

  lemma {:induction false} IssuedLeaseIsGenuine(events: seq<Event>, l: Lease)
    requires Issued(events, l)
    ensures l.job in Run(EMPTY, events).jobs && Run(EMPTY, events).jobs[l.job].payload == l.payload
  {
    var n := |events| - 1;
    var before := events[..n];
    var i :| 0 <= i < |events| && IssuedAt(events, i, l);
    if i < n {
      assert events[..i] == before[..i];
      assert IssuedAt(before, i, l);
      IssuedLeaseIsGenuine(before, l);
      StepKeepsPayloads(Run(EMPTY, before), events[n], l.job);
    }
  }

  /** Hence the fence never finds a viewer and changes nothing: a stop under a
      current lease is never superseded. */
  lemma FenceNeverSupersedes(start: Time, events: seq<Event>, now: Time, l: Lease, rights: Authorization)
    requires InOrder(start, events) && Clock(start, events) <= now && Issued(events, l) && l.job.kind == StopJob
    requires Holds(Run(EMPTY, events), now, l) && rights.Authorized?
    ensures Revalidate(Run(EMPTY, events), now, l, rights) == (Run(EMPTY, events), rights.(superseded := false))
  {
    var db := Run(EMPTY, events);
    IssuedLeaseIsGenuine(events, l);
    OutstandingStopFences(start, events, now, l.job);
    RunKeeps(EMPTY, start, events);
    assert StopJobOk(db, l.job);
    assert forall id :: id in db.sessions && Watches(db.sessions[id], l) && Live(db.sessions[id], now) ==> HasLive(db, l.job.key, now);
    assert db.streams[l.job.key := db.streams[l.job.key].(state := Stopping)] == db.streams;
  }

  /** A stop that finishes `stopped` never takes the branch for a stream that is
      watched again: it leaves the stream `stopped`, every session of it closed,
      and its job succeeded. */
  lemma StoppedMeansStopped(start: Time, events: seq<Event>, now: Time, l: Lease, next: Time, cameraVersion: Option<int>)
    requires InOrder(start, events) && Clock(start, events) <= now && Issued(events, l) && l.job.kind == StopJob
    requires Finish(Run(EMPTY, events), now, l, ResultStopped, next, cameraVersion).1.None?
    ensures !HasLive(Run(EMPTY, events), l.payload.stream, now)
    ensures var after := Finish(Run(EMPTY, events), now, l, ResultStopped, next, cameraVersion).0;
      && l.payload.stream in after.streams && after.streams[l.payload.stream].state == Stopped
      && (forall id :: id in after.sessions && after.sessions[id].stream == l.payload.stream ==> !Open(after.sessions[id].state))
      && after.jobs[l.job].status == Succeeded
  {
    IssuedLeaseIsGenuine(events, l);
    OutstandingStopFences(start, events, now, l.job);
  }

  // ----- what does not hold: stop jobs nobody works on

  /** What `Workable` means: at some time from now on a claim takes the job, or a lease of it runs. */
  lemma WorkableMeaning(j: Job, now: Time)
    ensures Workable(j, now) <==> exists t: Time :: now <= t && (Claimable(j, t) || Leased(j, t))
  {
    if Workable(j, now) {
      var t := if j.status == Running then j.leasedUntil.value else j.availableAt;
      var u := if Leased(j, now) || t < now then now else t;
      assert now <= u && (Claimable(j, u) || Leased(j, u));
    }
  }

  /** The last viewer leaving leaves behind a stop job that will be worked on exactly if no
      stop job of the stream was stored, or the stored one is still to be worked on: the
      insert does nothing where the key exists. Otherwise the stream is left stranded. */
  lemma StopLeavesWorkIff(start: Time, events: seq<Event>, now: Time, id: string)
    requires InOrder(start, events) && Clock(start, events) <= now
    requires var db := Run(EMPTY, events); id in db.sessions && Open(db.sessions[id].state)
    requires LastViewer(Run(EMPTY, events), now, id)
    ensures var db := Run(EMPTY, events); var k := StopKey(db.sessions[id]); var after := Stop(db, now, id, None).0;
      && k in after.jobs && (Workable(after.jobs[k], now) <==> k !in db.jobs || Workable(db.jobs[k], now))
      && (Stranded(after, now, db.sessions[id].stream) <==> k in db.jobs && !Workable(db.jobs[k], now))
  {
    RunKeeps(EMPTY, start, events);
    var db := Run(EMPTY, events);
    assert db.sessions[id].stream in db.streams;
  }

  /** A stream that is `stopping` with a stop job that nobody will work on: it is over, or
      its attempts are spent and its last lease has run out. */
  ghost predicate Stranded(db: Db, now: Time, id: string) {
    id in db.streams && db.streams[id].state == Stopping
    && var k := JobKey(db.streams[id].tenant, StopJob, id); k in db.jobs && !Workable(db.jobs[k], now)
  }

  lemma StrandedStays(db: Db, e: Event, id: string)
    requires Inv(db, e.now) && Stranded(db, e.now, id)
    ensures Stranded(Step(db, e), e.now, id) && Step(db, e).streams[id] == db.streams[id]
  {
    match e
    case CreateEvent(now, in_, guard) => CreateLeavesStranded(db, now, in_, guard, id);
    case StopEvent(now, session, guard) => StopLeavesStranded(db, now, session, guard, id);
    case ClaimEvent(now, k, lease, token) =>
      if k in db.jobs && Claimable(db.jobs[k], now) { ClaimLeavesStranded(db, now, k, lease, token, id); }
    case RevalidateEvent(now, l, rights) => RevalidateLeavesStranded(db, now, l, rights, id);
    case FinishEvent(now, l, r, next, cameraVersion) => FinishLeavesStranded(db, now, l, r, next, cameraVersion, id);
  }

  lemma StopLeavesStranded(db: Db, now: Time, session: string, guard: Option<Error>, id: string)
    requires Stranded(db, now, id)
    ensures Stranded(Stop(db, now, session, guard).0, now, id) && Stop(db, now, session, guard).0.streams[id] == db.streams[id]
  {}

  lemma ClaimLeavesStranded(db: Db, now: Time, k: JobKey, lease: Time, token: string, id: string)
    requires Stranded(db, now, id) && k in db.jobs && Claimable(db.jobs[k], now)
    ensures Stranded(Claim(db, now, k, lease, token).0, now, id) && Claim(db, now, k, lease, token).0.streams[id] == db.streams[id]
  {
    assert k != JobKey(db.streams[id].tenant, StopJob, id);
  }

  lemma RevalidateLeavesStranded(db: Db, now: Time, l: Lease, rights: Authorization, id: string)
    requires Stranded(db, now, id)
    ensures Stranded(Revalidate(db, now, l, rights).0, now, id) && Revalidate(db, now, l, rights).0.streams[id] == db.streams[id]
  {}

  lemma EnsureStreamLeaves(db: Db, s: Session, id: string)
    requires Linked(db) && id in db.streams && db.streams[id].state == Stopping
    ensures var (after, stream, _) := EnsureStream(db, s);
      id in after.streams && after.streams[id] == db.streams[id] && stream != Some(id)
      && (s.camera == db.streams[id].camera && s.version == db.streams[id].version ==> stream.None?)
  {}

  lemma FinishLeavesStranded(db: Db, now: Time, l: Lease, r: Result, next: Time, cameraVersion: Option<int>, id: string)
    requires Inv(db, now) && Stranded(db, now, id)
    ensures var after := Finish(db, now, l, r, next, cameraVersion).0; Stranded(after, now, id) && after.streams[id] == db.streams[id]
  {
    if Finish(db, now, l, r, next, cameraVersion).1.None? {
      var k, j := JobKey(db.streams[id].tenant, StopJob, id), db.jobs[l.job];
      assert Leased(j, now) && l.job != k;
      HeldElsewhere(db, now, l, r, next, cameraVersion, id);
      FinishKeepsOtherJobs(db, now, l, r, next, cameraVersion, k);
      ConcludeKeepsJobs(db.(jobs := db.jobs[l.job := j.(status := FinalStatus(r), availableAt := next, leasedUntil := None, owner := None)]),
                        l.job.kind, j.payload.stream, r, HasLive(db, j.payload.stream, now));
    }
  }

  /** A lease that can still be finished is about another stream. */
  lemma HeldElsewhere(db: Db, now: Time, l: Lease, r: Result, next: Time, cameraVersion: Option<int>, id: string)
    requires Inv(db, now) && Stranded(db, now, id) && Finish(db, now, l, r, next, cameraVersion).1.None?
    ensures db.jobs[l.job].payload.stream != id
  {
    assert StopJobOk(db, l.job) && Leased(db.jobs[l.job], now);
    if l.job.kind == StartJob { assert HasWaiting(db, db.jobs[l.job].payload.stream, now) ==> HasLive(db, db.jobs[l.job].payload.stream, now); }
  }

  lemma EnterLeavesStreams(db: Db, now: Time, withStream: Db, stream: string, in_: CreateInput, id: string)
    requires stream in withStream.streams && id in db.streams && id in withStream.streams && withStream.streams[id] == db.streams[id] && stream != id
    ensures var after := Enter(db, withStream, stream, in_, now).0; id in after.streams && after.streams[id] == db.streams[id]
  {}

  lemma CreateLeavesStranded(db: Db, now: Time, in_: CreateInput, guard: Option<Error>, id: string)
    requires Inv(db, now) && Stranded(db, now, id)
    ensures Stranded(Create(db, now, in_, guard).0, now, id) && Create(db, now, in_, guard).0.streams[id] == db.streams[id]
  {
    CreateKeepsJobs(db, now, in_, guard, JobKey(db.streams[id].tenant, StopJob, id));
    EnsureStreamLeaves(db, in_.session, id);
    var (withStream, stream, _) := EnsureStream(db, in_.session);
    if stream.Some? { EnterLeavesStreams(db, now, withStream, stream.value, in_, id); }
  }

  lemma CreateRefused(db: Db, now: Time, in_: CreateInput, guard: Option<Error>, id: string)
    requires Inv(db, now) && id in db.streams && db.streams[id].state == Stopping
    requires in_.id !in db.sessions && in_.session.camera == db.streams[id].camera && in_.session.version == db.streams[id].version
    ensures Create(db, now, in_, guard).1.Denied?
  {
    EnsureStreamLeaves(db, in_.session, id);
  }

  lemma StrandedLater(db: Db, now: Time, later: Time, id: string)
    requires Stranded(db, now, id) && now <= later
    ensures Stranded(db, later, id)
  {}

  /** Such a stream is never moved again, and no new viewer is ever admitted to its
      camera and source version. */
  lemma StrandedForever(db: Db, start: Time, events: seq<Event>, id: string, in_: CreateInput, now: Time, guard: Option<Error>)
    requires Inv(db, start) && InOrder(start, events) && Stranded(db, start, id) && Clock(start, events) <= now
    requires in_.id !in Run(db, events).sessions
    requires in_.session.camera == db.streams[id].camera && in_.session.version == db.streams[id].version
    ensures Stranded(Run(db, events), now, id)
    ensures Create(Run(db, events), now, in_, guard).1.Denied?
  {
    StrandedAlong(db, start, events, id);
    StrandedLater(Run(db, events), Clock(start, events), now, id);
    RunKeeps(db, start, events);
    TimePasses(Run(db, events), Clock(start, events), now);
    CreateRefused(Run(db, events), now, in_, guard, id);
  }

  lemma {:induction false} StrandedAlong(db: Db, start: Time, events: seq<Event>, id: string)
    requires Inv(db, start) && InOrder(start, events) && Stranded(db, start, id)
    ensures Stranded(Run(db, events), Clock(start, events), id) && Run(db, events).streams[id] == db.streams[id]
  {
    if events != [] {
      var n := |events| - 1;
      StrandedAlong(db, start, events[..n], id);
      RunKeeps(db, start, events[..n]);
      TimePasses(Run(db, events[..n]), Clock(start, events[..n]), events[n].now);
      StrandedLater(Run(db, events[..n]), Clock(start, events[..n]), events[n].now, id);
      StrandedStays(Run(db, events[..n]), events[n], id);
    }
  }

  // It does happen: one viewer comes and leaves, the stop is carried out, a second viewer comes and leaves.

  function Viewer(id: string): CreateInput {
    CreateInput(id, Session("x", 1, 1, 1, Ticket(7, [], id, 0), 100, SessionPending), "start:1:1")
  }

  function Tables(stream: StreamState, stop: JobStatus, attempts: nat, availableAt: Time, leasedUntil: Option<Time>, owner: Option<string>,
                  sessions: map<string, Session>): Db {
    Db(map["x" := Stream(1, 1, 1, stream)], map[(1, 1) := "x"], sessions,
       map[JobKey(1, StartJob, "start:1:1") := Job(1, Payload("a", 1, 1, "x"), Scheduled, 0, 0, None, None),
           JobKey(1, StopJob, "x") := Job(2, Payload("a", 1, 1, "x"), stop, attempts, availableAt, leasedUntil, owner)], 3)
  }

  lemma Then(events: seq<Event>, db: Db, e: Event, db': Db) returns (longer: seq<Event>)
    requires Run(EMPTY, events) == db && Step(db, e) == db'
    requires InOrder(0, events) && 0 <= e.now && Clock(0, events) <= e.now
    ensures Run(EMPTY, longer) == db' && InOrder(0, longer) && Clock(0, longer) == e.now
  {
    longer := events + [e];
    assert longer[..|events|] == events;
  }

  function Gone(): Session { Viewer("a").session.(state := Revoked) }

  function Opened(): Db {
    Db(map["x" := Stream(1, 1, 1, StreamPending)], map[(1, 1) := "x"], map["a" := Viewer("a").session],
       map[JobKey(1, StartJob, "start:1:1") := Job(1, Payload("a", 1, 1, "x"), Scheduled, 0, 0, None, None)], 2)
  }

  function Leaving(): Db { Tables(Stopping, Scheduled, 0, 1, None, None, map["a" := Gone()]) }

  function Claimed(): Db { Tables(Stopping, Running, 1, 1, Some(32), Some("t"), map["a" := Gone()]) }

  function Cycled(): Db { Tables(Stopped, Succeeded, 1, 3, None, None, map["a" := Gone()]) }

  function StopLease(): Lease { Lease(JobKey(1, StopJob, "x"), Payload("a", 1, 1, "x"), 1, "t", 32) }

  /** What the last viewer's leaving writes. */
  lemma LastLeaves(db: Db, now: Time, id: string)
    requires id in db.sessions && Open(db.sessions[id].state) && db.sessions[id].stream in db.streams && LastViewer(db, now, id)
    ensures var s := db.sessions[id]; var left := db.(sessions := db.sessions[id := s.(state := Revoked)]);
      Step(db, StopEvent(now, id, None)) == InsertJob(SetStream(left, s.stream, Stopping), StopKey(s), Payload(id, s.camera, s.version, s.stream), now)
  {}

  lemma Opens()
    ensures Step(EMPTY, CreateEvent(0, Viewer("a"), None)) == Opened()
  {}

  /** Leaving the opened stream, whoever else has a session. */
  lemma LeavesTables(sessions: map<string, Session>, now: Time)
    requires "a" in sessions && sessions["a"] == Viewer("a").session
    ensures InsertJob(SetStream(Opened().(sessions := sessions["a" := Gone()]), "x", Stopping), JobKey(1, StopJob, "x"), Payload("a", 1, 1, "x"), now)
      == Tables(Stopping, Scheduled, 0, now, None, None, sessions["a" := Gone()])
  {}

  lemma Leaves()
    ensures Step(Opened(), StopEvent(1, "a", None)) == Leaving()
  {
    assert LastViewer(Opened(), 1, "a");
    LastLeaves(Opened(), 1, "a");
    assert Opened().sessions["a" := Gone()] == Leaving().sessions;
    LeavesTables(Opened().sessions, 1);
  }

  lemma Claims()
    ensures Step(Leaving(), ClaimEvent(2, JobKey(1, StopJob, "x"), 30, "t")) == Claimed()
  {
    assert Claim(Leaving(), 2, JobKey(1, StopJob, "x"), 30, "t").0.jobs == Claimed().jobs;
  }

  lemma StopIsHeld()
    ensures Holds(Claimed(), 3, StopLease()) && !Abandons(Claimed(), 3, StopLease(), Some(1)) && !HasLive(Claimed(), "x", 3)
  {}

  /** What a stop finished as stopped writes. */
  lemma StopFinishes(db: Db, now: Time, l: Lease, next: Time, version: int)
    requires Holds(db, now, l) && !Abandons(db, now, l, Some(version)) && !HasLive(db, db.jobs[l.job].payload.stream, now)
    ensures var j := db.jobs[l.job]; var stream := j.payload.stream;
      Step(db, FinishEvent(now, l, ResultStopped, next, Some(version))) ==
        SetStream(db, stream, Stopped).(jobs := db.jobs[l.job := j.(status := Succeeded, availableAt := next, leasedUntil := None, owner := None)],
          sessions := MoveSessions(db.sessions, stream, {SessionPending, SessionReady}, Revoked))
  {}

  lemma Cycles()
    ensures Step(Claimed(), FinishEvent(3, StopLease(), ResultStopped, 3, Some(1))) == Cycled()
  {
    StopIsHeld();
    StopFinishes(Claimed(), 3, StopLease(), 3, 1);
    assert MoveSessions(Claimed().sessions, "x", {SessionPending, SessionReady}, Revoked) == Cycled().sessions;
  }

  lemma FirstCycle() returns (events: seq<Event>)
    ensures InOrder(0, events) && Clock(0, events) == 3
    ensures Run(EMPTY, events) == Cycled()
  {
    Opens();
    events := Then([], EMPTY, CreateEvent(0, Viewer("a"), None), Opened());
    Leaves();
    events := Then(events, Opened(), StopEvent(1, "a", None), Leaving());
    Claims();
    events := Then(events, Leaving(), ClaimEvent(2, JobKey(1, StopJob, "x"), 30, "t"), Claimed());
    Cycles();
    events := Then(events, Claimed(), FinishEvent(3, StopLease(), ResultStopped, 3, Some(1)), Cycled());
  }

  function Reopened(): Db {
    Tables(Stopped, Succeeded, 1, 3, None, None, map["a" := Gone(), "b" := Viewer("b").session])
  }

  lemma Reopens()
    ensures Step(Cycled(), CreateEvent(4, Viewer("b"), None)) == Reopened()
  {
    assert Create(Cycled(), 4, Viewer("b"), None).0 == Reopened();
  }

  lemma Strands()
    ensures Stranded(Step(Reopened(), StopEvent(5, "b", None)), 5, "x")
  {
    assert LastViewer(Reopened(), 5, "b");
  }

  lemma SecondCycleStrands() returns (events: seq<Event>)
    ensures InOrder(0, events) && Clock(0, events) == 5 && Stranded(Run(EMPTY, events), 5, "x")
  {
    events := FirstCycle();
    Reopens();
    events := Then(events, Cycled(), CreateEvent(4, Viewer("b"), None), Reopened());
    Strands();
    events := Then(events, Reopened(), StopEvent(5, "b", None), Step(Reopened(), StopEvent(5, "b", None)));
  }

  // It happens in the first cycle, too: six workers that claim the stop job die, and the second
  // of two viewers, whose session has expired meanwhile, leaves after that.

  function Guest(): CreateInput {
    CreateInput("b", Session("x", 1, 1, 1, Ticket(7, [], "b", 0), 5, SessionPending), "start:1:1")
  }

  function Visited(): Db { Opened().(sessions := map["a" := Viewer("a").session, "b" := Guest().session]) }

  function Watched(a: Session): map<string, Session> { map["a" := a, "b" := Guest().session] }

  /** After `n` claims, the last at time 10 * n. */
  function AfterClaims(n: nat): Db {
    if n == 0 then Tables(Stopping, Scheduled, 0, 6, None, None, Watched(Gone()))
    else Tables(Stopping, Running, n, 6, Some(10 * n + 1), Some("t"), Watched(Gone()))
  }

  lemma Visits()
    ensures Step(Opened(), CreateEvent(0, Guest(), None)) == Visited()
  {
    assert Create(Opened(), 0, Guest(), None).0.sessions == Visited().sessions;
  }

  lemma LeavesGuest()
    ensures Step(Visited(), StopEvent(6, "a", None)) == AfterClaims(0)
  {
    assert LastViewer(Visited(), 6, "a");
    LastLeaves(Visited(), 6, "a");
    assert Visited().sessions["a" := Gone()] == AfterClaims(0).sessions;
    LeavesTables(Visited().sessions, 6);
  }

  lemma ClaimsOnce(n: nat)
    requires 1 <= n <= 6
    ensures Step(AfterClaims(n - 1), ClaimEvent(10 * n, JobKey(1, StopJob, "x"), 1, "t")) == AfterClaims(n)
  {
    assert Claim(AfterClaims(n - 1), 10 * n, JobKey(1, StopJob, "x"), 1, "t").0.jobs == AfterClaims(n).jobs;
  }

  lemma GuestLeft() returns (events: seq<Event>)
    ensures InOrder(0, events) && Clock(0, events) == 6 && Run(EMPTY, events) == AfterClaims(0)
  {
    Opens();
    events := Then([], EMPTY, CreateEvent(0, Viewer("a"), None), Opened());
    Visits();
    events := Then(events, Opened(), CreateEvent(0, Guest(), None), Visited());
    LeavesGuest();
    events := Then(events, Visited(), StopEvent(6, "a", None), AfterClaims(0));
  }

  lemma {:induction false} ClaimsDie(n: nat) returns (events: seq<Event>)
    requires n <= 6
    ensures InOrder(0, events) && Clock(0, events) <= 10 * n + 6 && Run(EMPTY, events) == AfterClaims(n)
  {
    if n == 0 {
      events := GuestLeft();
    } else {
      events := ClaimsDie(n - 1);
      ClaimsOnce(n);
      events := Then(events, AfterClaims(n - 1), ClaimEvent(10 * n, JobKey(1, StopJob, "x"), 1, "t"), AfterClaims(n));
    }
  }

  lemma GuestStrands()
    ensures var db := Step(AfterClaims(6), StopEvent(66, "b", None));
      Stranded(db, 66, "x") && db.streams["x"].tenant == 1 && Outstanding(db.jobs[JobKey(1, StopJob, "x")])
  {
    assert LastViewer(AfterClaims(6), 66, "b");
  }

  lemma SixDeadWorkersStrand() returns (events: seq<Event>)
    ensures InOrder(0, events) && Clock(0, events) == 66 && Stranded(Run(EMPTY, events), 66, "x")
    ensures Run(EMPTY, events).streams["x"].tenant == 1 && Outstanding(Run(EMPTY, events).jobs[JobKey(1, StopJob, "x")])
  {
    events := ClaimsDie(6);
    GuestStrands();
    events := Then(events, AfterClaims(6), StopEvent(66, "b", None), Step(AfterClaims(6), StopEvent(66, "b", None)));
  }
}
