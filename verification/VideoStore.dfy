/** The store object: each transaction updates the table rows statement by
    statement and puts everything back when it fails. */
module VideoStore {
  import opened Prelude
  import opened VideoTables

  class Store {
    var streams: map<string, Stream>
    var streamOf: map<(int, int), string>
    var sessions: map<string, Session>
    var jobs: map<JobKey, Job>
    var nextJob: nat

    function View(): Db
      reads this
    {
      Db(streams, streamOf, sessions, jobs, nextJob)
    }

    constructor ()
      ensures View() == EMPTY
    {
      streams, streamOf, sessions, jobs, nextJob := map[], map[], map[], map[], 1;
    }

    method Rollback(saved: Db)
      modifies this
      ensures View() == saved
    {
      streams, streamOf, sessions, jobs, nextJob := saved.streams, saved.streamOf, saved.sessions, saved.jobs, saved.nextJob;
    }

    /** INSERT INTO jobs ... ON CONFLICT DO NOTHING; says whether a row went in. */
    method Insert(k: JobKey, payload: Payload, now: Time) returns (inserted: bool)
      modifies this
      ensures View() == InsertJob(old(View()), k, payload, now) && inserted == (k !in old(jobs))
    {
      if k in jobs { return false; }
      jobs := jobs[k := Job(nextJob, payload, Scheduled, 0, now, None, None)];
      nextJob := nextJob + 1;
      return true;
    }

    method Ensure(s: Session) returns (stream: Option<string>, error: Error)
      modifies this
      ensures (View(), stream, error) == EnsureStream(old(View()), s)
    {
      var index := (s.camera, s.version);
      if index !in streamOf {
        if s.stream in streams { return None, ErrConflict; }
        streams := streams[s.stream := Stream(s.camera, s.tenant, s.version, StreamPending)];
        streamOf := streamOf[index := s.stream];
        return Some(s.stream), ErrConflict;
      }
      var got := streamOf[index];
      if got !in streams || streams[got].tenant != s.tenant { return None, ErrNotFound; }
      if streams[got].state == Stopping { return None, ErrConflict; }
      return Some(got), ErrConflict;
    }

    method CreatePlayback(now: Time, in_: CreateInput, guard: Option<Error>) returns (r: Created)
      modifies this
      ensures (View(), r) == Create(old(View()), now, in_, guard)
    {
      var saved := View();
      if guard.Some? { return Denied(guard.value); }
      if in_.id in sessions {
        var existing := sessions[in_.id];
        if existing.(state := SessionPending) != in_.session.(state := SessionPending) { return Denied(ErrConflict); }
        return Granted(existing);
      }
      var stream, error := Ensure(in_.session);
      if stream.None? { return Denied(error); }
      if TokenTaken(View(), in_.session.ticket.tokenHash) {
        Rollback(saved);
        return Denied(ErrConflict);
      }
      var mine := in_.session.(stream := stream.value, state := SessionPending);
      sessions := sessions[in_.id := mine];
      var k := JobKey(mine.tenant, StartJob, in_.startKey);
      var inserted := Insert(k, StartPayload(in_, stream.value), now);
      if inserted { return Granted(mine); }
      r := Join(in_, stream.value, now);
      if r.Denied? { Rollback(saved); }
    }

    method Join(in_: CreateInput, stream: string, now: Time) returns (r: Created)
      requires in_.id in sessions && stream in streams && JobKey(in_.session.tenant, StartJob, in_.startKey) in jobs
      modifies this
      ensures (View(), r) == JoinStartJob(old(View()), in_, stream, now)
    {
      var job := jobs[JobKey(in_.session.tenant, StartJob, in_.startKey)];
      if job.payload.camera != in_.session.camera || job.payload.version != in_.session.version || job.payload.stream != stream {
        return Denied(ErrConflict);
      }
      if job.status == Succeeded && streams[stream].state == StreamReady {
        sessions := sessions[in_.id := sessions[in_.id].(state := SessionReady)];
      } else if job.status == JobFailed || job.status == Cancelled || job.status == Succeeded {
        streams := streams[stream := streams[stream].(state := StreamPending)];
        var _ := Insert(JobKey(in_.session.tenant, StartJob, in_.startKey + ":" + in_.id), StartPayload(in_, stream), now);
      }
      return Granted(sessions[in_.id]);
    }

    method StopOwnedPlayback(now: Time, id: string, guard: Option<Error>) returns (error: Option<Error>)
      modifies this
      ensures (View(), error) == Stop(old(View()), now, id, guard)
    {
      if guard.Some? { return guard; }
      if id !in sessions { return Some(ErrNotFound); }
      var s := sessions[id];
      if s.stream !in streams { return Some(ErrUnavailable); }
      if s.state == SessionPending || s.state == SessionReady {
        sessions := sessions[id := s.(state := Revoked)];
        if !HasLive(View(), s.stream, now) {
          streams := streams[s.stream := streams[s.stream].(state := Stopping)];
          var _ := Insert(StopKey(s), Payload(id, s.camera, s.version, s.stream), now);
        }
      }
      return None;
    }

    /** The claim hands out the first claimable job that no other transaction has locked, and none exactly if there is none. */
    method ClaimJob(now: Time, lease: Time, token: string, locked: set<JobKey>) returns (r: Option<Lease>)
      modifies this
      ensures r.None? ==> View() == old(View())
      ensures r.None? ==> forall k :: k in old(jobs) && k !in locked ==> !Claimable(old(jobs)[k], now)
      ensures r.Some? ==> var k := r.value.job;
        NextJob(old(View()), now, locked, k) && (View(), r.value) == Claim(old(View()), now, k, lease, token)
    {
      var ready := set k | k in jobs && k !in locked && Claimable(jobs[k], now);
      if ready == {} {
        assert forall k :: k in jobs && k !in locked && Claimable(jobs[k], now) ==> k in ready;
        return None;
      }
      ghost var first := FirstExists(jobs, ready);
      assert first in ready;
      var k :| k in ready && forall o :: o in ready ==> !Before(jobs[o], jobs[k]);
      assert forall o :: o in jobs && o !in locked && Claimable(jobs[o], now) ==> o in ready;
      var j := jobs[k];
      jobs := jobs[k := j.(status := Running, attempts := j.attempts + 1, leasedUntil := Some(now + lease), owner := Some(token))];
      var stream := j.payload.stream;
      if k.kind == StartJob && stream in streams && streams[stream].state in {StreamPending, StreamFailed, StreamUnknown} {
        streams := streams[stream := streams[stream].(state := Starting)];
      }
      return Some(Lease(k, j.payload, j.attempts + 1, token, now + lease));
    }

    method RevalidateJob(now: Time, l: Lease, rights: Authorization) returns (r: Authorization)
      modifies this
      ensures (View(), r) == Revalidate(old(View()), now, l, rights)
    {
      if !Holds(View(), now, l) { return Lost(ErrLeaseLost); }
      var superseded := false;
      if l.job.kind == StopJob {
        if l.payload.stream !in streams || !SameStream(streams[l.payload.stream], l) { return Lost(ErrLeaseLost); }
        if rights.Lost? { return rights; }
        superseded := exists id :: id in sessions && Watches(sessions[id], l) && Live(sessions[id], now);
        if !superseded {
          streams := streams[l.payload.stream := streams[l.payload.stream].(state := Stopping)];
        }
      }
      return if rights.Lost? then rights else rights.(superseded := superseded);
    }

    /** The scan over the stream's session rows: counts, and whether a row belongs elsewhere. */
    method Scan(rows: set<string>, tenant: int, p: Payload, now: Time)
      returns (foreign: bool, found: bool, count: nat, pending: nat, active: nat)
      requires forall id :: id in rows ==> id in sessions
      ensures foreign <==> exists id :: id in rows && !Belongs(sessions[id], tenant, p)
      ensures !foreign ==> (found <==> p.session in rows) && (count == 0 <==> rows == {})
      ensures !foreign ==> (pending > 0 <==> exists id :: id in rows && Live(sessions[id], now) && sessions[id].state == SessionPending)
      ensures !foreign ==> (active > 0 <==> exists id :: id in rows && Live(sessions[id], now))
    {
      foreign, found, count, pending, active := false, false, 0, 0, 0;
      var left := rows;
      ghost var seen := {};
      while left != {}
        invariant rows == left + seen
        invariant forall id :: id in seen ==> Belongs(sessions[id], tenant, p)
        invariant found <==> p.session in seen
        invariant count == 0 <==> seen == {}
        invariant pending > 0 <==> exists id :: id in seen && Live(sessions[id], now) && sessions[id].state == SessionPending
        invariant active > 0 <==> exists id :: id in seen && Live(sessions[id], now)
        decreases |left|
      {
        var id :| id in left;
        var s := sessions[id];
        if !Belongs(s, tenant, p) { return true, found, count, pending, active; }
        count := count + 1;
        if id == p.session { found := true; }
        var live := s.expires > now;
        if live && s.state == SessionPending { pending := pending + 1; }
        if live && (s.state == SessionPending || s.state == SessionReady) { active := active + 1; }
        left, seen := left - {id}, seen + {id};
      }
    }

    method FinishJob(now: Time, l: Lease, r: Result, next: Time, cameraVersion: Option<int>) returns (error: Option<Error>)
      modifies this
      ensures (View(), error) == Finish(old(View()), now, l, r, next, cameraVersion)
    {
      if !Holds(View(), now, l) { return Some(ErrLeaseLost); }
      var j := jobs[l.job];
      var p := j.payload;
      if p.camera != l.payload.camera || p.version != l.payload.version || p.stream != l.payload.stream { return Some(ErrLeaseLost); }
      if cameraVersion.None? || cameraVersion.value != p.version { return Some(ErrLeaseLost); }
      if p.stream !in streams || !SameStream(streams[p.stream], l) { return Some(ErrLeaseLost); }
      var rows := set id | id in sessions && sessions[id].stream == p.stream;
      var foreign, found, count, pending, active := Scan(rows, l.job.tenant, p, now);
      assert p.session in sessions && sessions[p.session].stream == p.stream ==> rows != {};
      assert !foreign ==> (pending > 0 <==> HasWaiting(View(), p.stream, now)) && (active > 0 <==> HasLive(View(), p.stream, now));
      if foreign || count == 0 || !found || (l.job.kind == StartJob && pending == 0) { return Some(ErrLeaseLost); }
      jobs := jobs[l.job := j.(status := FinalStatus(r), availableAt := next, leasedUntil := None, owner := None)];
      FinishStreamAndSessions(l.job.kind, p.stream, r, active);
      return None;
    }

    method FinishStreamAndSessions(kind: JobKind, stream: string, r: Result, active: nat)
      requires stream in streams
      modifies this
      ensures View() == Conclude(old(View()), kind, stream, r, active > 0)
    {
      var streamState, sessionState := StreamFailed, None;
      match r {
        case ResultReady => streamState, sessionState := StreamReady, Some(SessionReady);
        case ResultStopped => streamState := Stopped;
        case ResultRetryable => streamState := if kind == StopJob then Stopping else Starting;
        case _ =>
          if kind == StopJob && r == ResultSkipped {
            streamState := StreamReady;
          } else {
            streamState, sessionState := StreamFailed, Some(SessionFailed);
          }
      }
      streams := streams[stream := streams[stream].(state := streamState)];
      if sessionState.Some? {
        sessions := MoveSessions(sessions, stream, {SessionPending}, sessionState.value);
        return;
      }
      if kind == StopJob && r == ResultSkipped {
        if active > 0 { return; }
        streams := streams[stream := streams[stream].(state := Stopped)];
      } else if r == ResultStopped {
        if active > 0 {
          streams := streams[stream := streams[stream].(state := StreamReady)];
          return;
        }
        sessions := MoveSessions(sessions, stream, {SessionPending, SessionReady}, Revoked);
      }
    }
  }

  ghost predicate First(jobs: map<JobKey, Job>, ready: set<JobKey>, k: JobKey)
    requires forall o :: o in ready ==> o in jobs
  {
    k in ready && forall o :: o in ready ==> !Before(jobs[o], jobs[k])
  }

  /** Among jobs with a time and an id there is always a first one. */
  lemma FirstExists(jobs: map<JobKey, Job>, ready: set<JobKey>) returns (k: JobKey)
    requires ready != {} && forall o :: o in ready ==> o in jobs
    ensures First(jobs, ready, k)
    decreases |ready|
  {
    k :| k in ready;
    var rest := ready - {k};
    if rest != {} {
      var y := FirstExists(jobs, rest);
      if Before(jobs[y], jobs[k]) { k := y; }
    }
    assert forall o :: o in ready ==> o in rest || o in ready - rest;
  }
}
