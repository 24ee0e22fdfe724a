/** When a device goes online and offline, exactly, and what each section leaves of its session. */
module SessionOutcomes {
  import opened Prelude
  import opened SessionRegistry

  /** The step reports the device, and the handler accepts it. */
  ghost predicate Told(s: State, e: Event, grace: int, device: string, online: bool) {
    Step(s, e, grace).statuses == s.statuses + [Status(device, online)]
  }

  /** What the status handler answers, if the section calls it. */
  predicate Accepts(e: Event) { (e.Connect? || e.Report? || e.LeaveEnd? || e.Work?) && e.accepts }

  ghost predicate OnlyRow(s: State, t: State, device: string, row: Row) { t.sessions == s.sessions[device := row] }

  /** The client has connected for the device, or the device has reported over a live connection. */
  predicate Appears(s: State, e: Event, device: string) {
    || (e.Connect? && e.device == device && device in s.sessions && e.client !in s.takenOver && (e.revision.Some? ==> e.revision.value >= 0))
    || (e.Report? && e.device == device && device in s.sessions && s.sessions[device].client.Some?)
  }

  lemma StatusesAppended(statuses: seq<Status>, x: Status, y: Status)
    ensures statuses + [x] == statuses + [y] <==> x == y
    ensures statuses + [x] != statuses
  {
    assert (statuses + [x])[|statuses|] == x && (statuses + [y])[|statuses|] == y;
  }

  lemma ToldIff(s: State, e: Event, grace: int, device: string, online: bool)
    ensures Told(s, e, grace, device, online) <==>
      var held := Holds(s, e, grace); held.Some? && held.value.device == device && held.value.emitted == Accepted(online)
  {
    var held := Holds(s, e, grace);
    if held.Some? && held.value.emitted.Accepted? {
      StatusesAppended(s.statuses, Status(held.value.device, held.value.emitted.online), Status(device, online));
    } else {
      StatusesAppended(s.statuses, Status(device, online), Status(device, online));
    }
  }

  /** Main result. A device goes offline if and only if its session is online, the handler accepts
      the event, and its current client's disconnection comes to its end or a queued worker finds
      it without a client or past its grace period. */
  lemma GoesOfflineIff(s: State, e: Event, grace: int, device: string)
    ensures GoesOffline(s, e, grace, device) <==> Told(s, e, grace, device, false)
    ensures Told(s, e, grace, device, false) <==>
      device in s.sessions && s.sessions[device].online && Accepts(e) && Justified(s, e, grace, device)
    ensures Told(s, e, grace, device, false) ==> !Step(s, e, grace).sessions[device].online
  {
    ToldIff(s, e, grace, device, false);
  }

  /** Main result. A device is reported online if and only if the handler accepts the event and the
      device connects without being refused or reports over a live connection; it is online then. */
  lemma GoesOnlineIff(s: State, e: Event, grace: int, device: string)
    ensures Told(s, e, grace, device, true) <==> Accepts(e) && Appears(s, e, device)
    ensures Told(s, e, grace, device, true) ==> device in Step(s, e, grace).sessions && Step(s, e, grace).sessions[device].online
  {
    ToldIff(s, e, grace, device, true);
  }

  // ----- what each section leaves

  /** The end of the current client's disconnection leaves the session without a client,
      whatever the handler says, and offline if it accepts. */
  lemma LeavingEnds(s: State, e: Event, grace: int, device: string)
    requires CurrentLeaves(s, e, device)
    ensures var r, t := s.sessions[device], Step(s, e, grace);
      OnlyRow(s, t, device, Row(None, r.lastSeen, r.interval, r.online && !e.accepts, r.checking, r.revision)) && e.client !in t.leaving
  {}

  /** Looking a device up makes it a session that is offline and without a client, once. */
  lemma LookedUpRow(s: State, e: Event, grace: int)
    requires e.LookUp?
    ensures var t := Step(s, e, grace);
      t == if e.device in s.sessions then s else s.(sessions := s.sessions[e.device := Row(None, 0, e.interval, false, false, 0)])
  {}

  /** A connection that is not refused becomes the current one, heard now, and may act. */
  lemma ConnectedRow(s: State, e: Event, grace: int)
    requires e.Connect? && e.device in s.sessions
    ensures var r, t := s.sessions[e.device], Step(s, e, grace);
      if Appears(s, e, e.device) then
        && OnlyRow(s, t, e.device, Row(Some(e.client), e.now, e.interval, e.accepts || r.online, r.checking,
                                       if e.revision.Some? then e.revision.value else r.revision))
        && t.deviceOf == s.deviceOf[e.client := e.device] && MayAct(t, e.client, e.revision)
      else t == s
  {
    if !Appears(s, e, e.device) { assert s.sessions[e.device := s.sessions[e.device]] == s.sessions; }
  }

  /** A report over a live connection is a heartbeat; without a client it changes nothing. */
  lemma ReportedRow(s: State, e: Event, grace: int)
    requires e.Report? && e.device in s.sessions
    ensures var r, t := s.sessions[e.device], Step(s, e, grace);
      if r.client.Some? then OnlyRow(s, t, e.device, Row(r.client, e.now, r.interval, e.accepts || r.online, r.checking, r.revision))
      else t == s
  {
    if s.sessions[e.device].client.None? { assert s.sessions[e.device := s.sessions[e.device]] == s.sessions; }
  }

  /** A sweep starts a worker exactly for a session that is online, not being checked, and without
      a client or silent for the grace period, if a slot is free. */
  lemma SweepStartsIff(s: State, e: Event, grace: int)
    requires e.Check? && e.worker !in s.workers
    ensures var t := Step(s, e, grace); var due := e.device in s.sessions && s.sessions[e.device].online && !s.sessions[e.device].checking
        && (s.sessions[e.device].client.None? || s.sessions[e.device].lastSeen + s.sessions[e.device].interval * grace <= e.now);
      && (e.worker in t.workers <==> due && |s.workers| < 16)
      && (e.worker in t.workers ==> t.workers == s.workers[e.worker := Worker(e.device, e.now, true)])
      && (e.worker in t.workers ==> OnlyRow(s, t, e.device, s.sessions[e.device].(checking := true)) && t.statuses == s.statuses)
      && (e.worker !in t.workers ==> t == s)
  {}

  /** A worker takes the mark away, and takes the device offline if it still finds it so. */
  lemma WorkedRow(s: State, e: Event, grace: int, device: string)
    requires WorksOn(s, e, device)
    ensures var r, t := s.sessions[device], Step(s, e, grace);
      && OnlyRow(s, t, device, Row(r.client, r.lastSeen, r.interval,
           r.online && !(e.accepts && (r.client.None? || GraceOver(s, e, grace, device))), false, r.revision))
      && t.workers == s.workers[e.worker := Worker(device, s.workers[e.worker].now, false)]
  {}

  // ----- whole disconnections and sweeps

  /** Main result. A current client that disconnects, with nothing in between and a handler that
      accepts, leaves its device without a client, offline and reported so; and it no longer acts for it. */
  lemma DisconnectionTakesOffline(s: State, client: Client, grace: int, device: string)
    requires client in s.deviceOf && s.deviceOf[client] == device && IsCurrent(s, client, device) && client !in s.takenOver
    requires s.sessions[device].online
    ensures var t := Step(Step(Step(s, LeaveRead(client), grace), LeaveDelete(client), grace), LeaveEnd(client, true), grace);
      && OnlyRow(s, t, device, s.sessions[device].(client := None, online := false))
      && t.statuses == s.statuses + [Status(device, false)] && client !in t.deviceOf
  {
    var s1 := Step(s, LeaveRead(client), grace);
    var s2 := Step(s1, LeaveDelete(client), grace);
    assert s2.leaving[client] == Leaving(Some(device), true) && s2.sessions == s.sessions && s2.statuses == s.statuses;
    assert CurrentLeaves(s2, LeaveEnd(client, true), device);
    LeavingEnds(s2, LeaveEnd(client, true), grace, device);
    GoesOfflineIff(s2, LeaveEnd(client, true), grace, device);
  }

  /** A sweep that finds an online session silent for its grace period takes it offline, when its
      worker comes to run before anything else and the handler accepts. */
  lemma SilenceTakesOffline(s: State, device: string, now: int, worker: nat, grace: int)
    requires device in s.sessions && s.sessions[device].online && !s.sessions[device].checking
    requires s.sessions[device].client.None? || s.sessions[device].lastSeen + s.sessions[device].interval * grace <= now
    requires |s.workers| < SLOTS && worker !in s.workers
    ensures var t := Step(Step(s, Check(device, now, worker), grace), Work(worker, true), grace);
      && OnlyRow(s, t, device, s.sessions[device].(online := false)) && t.statuses == s.statuses + [Status(device, false)]
  {
    SweepStartsIff(s, Check(device, now, worker), grace);
    var s1 := Step(s, Check(device, now, worker), grace);
    assert WorksOn(s1, Work(worker, true), device);
    WorkedRow(s1, Work(worker, true), grace, device);
    GoesOfflineIff(s1, Work(worker, true), grace, device);
  }
}
