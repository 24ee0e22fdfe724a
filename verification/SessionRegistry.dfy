/** The registry of MQTT sessions. Every section that holds one lock is one step; steps of
    connections, reports, disconnections, sweeps and sweep workers come in any order. */
module SessionRegistry {
  import opened Prelude

  const SLOTS := 16

  /** A client is the identity of one live connection. */
  type Client = nat

  datatype Row = Row(client: Option<Client>, lastSeen: int, interval: int, online: bool, checking: bool, revision: int)

  /** A status event and whether the handler accepted it. */
  datatype Emitted = Nothing | Accepted(online: bool) | Failed

  /** transitionWithIngestID: going online is always reported, going offline only once. */
  function Transition(r: Row, online: bool, accepts: bool): (Row, Emitted) {
    if r.online == online && !online then (r, Nothing)
    else if accepts then (r.(online := online), Accepted(online))
    else (r, Failed)
  }

  /** No client, or nothing heard for the whole grace period. */
  predicate Expired(r: Row, now: int, grace: int) {
    r.client.None? || r.lastSeen + r.interval * grace <= now
  }

  // ----- the sections that hold a session

  function Connected(r: Row, client: Client, takenOver: bool, interval: int, revision: Option<int>, now: int, accepts: bool): (Row, Emitted) {
    if Rejected(takenOver, revision) then (r, Nothing)
    else
      var known := if revision.Some? then r.(revision := revision.value) else r;
      Transition(known.(client := Some(client), interval := interval, lastSeen := now), true, accepts)
  }

  predicate Rejected(takenOver: bool, revision: Option<int>) {
    takenOver || (revision.Some? && revision.value < 0)
  }

  function Reported(r: Row, now: int, accepts: bool): (Row, Emitted) {
    if r.client.None? then (r, Nothing) else Transition(r.(lastSeen := now), true, accepts)
  }

  function Disconnected(r: Row, client: Client, takenOver: bool, accepts: bool): (Row, Emitted) {
    if r.client != Some(client) || takenOver then (r, Nothing) else Transition(r.(client := None), false, accepts)
  }

  /** The sweep's look at a session, given whether a worker slot is free. */
  predicate Sweeps(r: Row, now: int, grace: int) {
    Expired(r, now, grace) && !r.checking && r.online
  }

  function Worked(r: Row, now: int, grace: int, accepts: bool): (Row, Emitted) {
    var (done, emitted) := if Expired(r, now, grace) then Transition(r, false, accepts) else (r, Nothing);
    (done.(checking := false), emitted)
  }

  // ----- the whole registry

  datatype Status = Status(device: string, online: bool)

  /** A worker is `queued` until it has run; it gives its slot back after that. */
  datatype Worker = Worker(device: string, now: int, queued: bool)

  /** A disconnection under way: what it found in the device map. */
  datatype Leaving = Leaving(device: Option<string>, deleted: bool)

  /** The device was heard: a connection or report of it held its session, with this clock reading. */
  datatype Heard = Heard(device: string, now: int)

  /** `statuses` and `heard` record the run; the program does not keep them. */
  datatype State = State(
    sessions: map<string, Row>, deviceOf: map<Client, string>, takenOver: set<Client>,
    leaving: map<Client, Leaving>, workers: map<nat, Worker>, statuses: seq<Status>, heard: seq<Heard>)

  datatype Event =
    | LookUp(device: string, interval: int)
    | Connect(client: Client, device: string, interval: int, revision: Option<int>, now: int, accepts: bool)
    | Report(device: string, now: int, accepts: bool)
    | TakeOver(client: Client)
    | LeaveRead(client: Client)
    | LeaveDelete(client: Client)
    | LeaveEnd(client: Client, accepts: bool)
    | Check(device: string, now: int, worker: nat)
    | Work(worker: nat, accepts: bool)
    | Release(worker: nat)

  /** What an event does to the one session it holds. */
  datatype Section = Section(device: string, row: Row, emitted: Emitted)

  function On(device: string, after: (Row, Emitted)): Option<Section> { Some(Section(device, after.0, after.1)) }

  /** The device a disconnection will hold; None if it ends without holding any. */
  function Leaves(s: State, client: Client): Option<string> {
    if client in s.leaving && s.leaving[client].deleted && s.leaving[client].device.Some? && s.leaving[client].device.value in s.sessions
    then s.leaving[client].device else None
  }

  predicate CanWork(s: State, worker: nat) {
    worker in s.workers && s.workers[worker].queued && s.workers[worker].device in s.sessions
  }

  predicate CanSweep(s: State, device: string, now: int, worker: nat, grace: int) {
    device in s.sessions && Sweeps(s.sessions[device], now, grace) && |s.workers| < SLOTS && worker !in s.workers
  }

  function Holds(s: State, e: Event, grace: int): Option<Section> {
    match e
    case LookUp(device, interval) =>
      if device in s.sessions then None else Some(Section(device, Row(None, 0, interval, false, false, 0), Nothing))
    case Connect(client, device, interval, revision, now, accepts) =>
      if device !in s.sessions then None
      else On(device, Connected(s.sessions[device], client, client in s.takenOver, interval, revision, now, accepts))
    case Report(device, now, accepts) =>
      if device !in s.sessions then None else On(device, Reported(s.sessions[device], now, accepts))
    case LeaveEnd(client, accepts) =>
      if Leaves(s, client).None? then None
      else On(Leaves(s, client).value, Disconnected(s.sessions[Leaves(s, client).value], client, client in s.takenOver, accepts))
    case Check(device, now, worker) =>
      if CanSweep(s, device, now, worker, grace) then Some(Section(device, s.sessions[device].(checking := true), Nothing)) else None
    case Work(worker, accepts) =>
      if CanWork(s, worker) then On(s.workers[worker].device, Worked(s.sessions[s.workers[worker].device], s.workers[worker].now, grace, accepts)) else None
    case _ => None
  }

  function Workers(s: State, e: Event, grace: int): map<nat, Worker> {
    match e
    case Check(device, now, worker) =>
      if CanSweep(s, device, now, worker, grace) then s.workers[worker := Worker(device, now, true)] else s.workers
    case Work(worker, _) =>
      if CanWork(s, worker) then s.workers[worker := s.workers[worker].(queued := false)] else s.workers
    case Release(worker) =>
      if worker in s.workers && !s.workers[worker].queued then s.workers - {worker} else s.workers
    case _ => s.workers
  }

  function DeviceOf(s: State, e: Event): map<Client, string> {
    match e
    case Connect(client, device, _, revision, _, _) =>
      if device !in s.sessions || Rejected(client in s.takenOver, revision) then s.deviceOf else s.deviceOf[client := device]
    case LeaveDelete(client) => if client in s.leaving then s.deviceOf - {client} else s.deviceOf
    case _ => s.deviceOf
  }

  function LeavingAfter(s: State, e: Event): map<Client, Leaving> {
    match e
    case LeaveRead(client) =>
      s.leaving[client := Leaving(if client in s.deviceOf then Some(s.deviceOf[client]) else None, false)]
    case LeaveDelete(client) =>
      if client in s.leaving then s.leaving[client := s.leaving[client].(deleted := true)] else s.leaving
    case LeaveEnd(client, _) =>
      if client in s.leaving && s.leaving[client].deleted then s.leaving - {client} else s.leaving
    case _ => s.leaving
  }

  function Sessions(sessions: map<string, Row>, held: Option<Section>): map<string, Row> {
    if held.Some? then sessions[held.value.device := held.value.row] else sessions
  }

  function Statuses(statuses: seq<Status>, held: Option<Section>): seq<Status> {
    if held.Some? && held.value.emitted.Accepted? then statuses + [Status(held.value.device, held.value.emitted.online)] else statuses
  }

  predicate Hears(s: State, e: Event) {
    match e
    case Connect(client, device, _, revision, _, _) => device in s.sessions && !Rejected(client in s.takenOver, revision)
    case Report(device, _, _) => device in s.sessions && s.sessions[device].client.Some?
    case _ => false
  }

  /** An event that is not possible where it comes changes nothing. */
  function Step(s: State, e: Event, grace: int): State {
    State(Sessions(s.sessions, Holds(s, e, grace)), DeviceOf(s, e), if e.TakeOver? then s.takenOver + {e.client} else s.takenOver,
          LeavingAfter(s, e), Workers(s, e, grace), Statuses(s.statuses, Holds(s, e, grace)),
          if Hears(s, e) then s.heard + [Heard(e.device, e.now)] else s.heard)
  }

  function Run(events: seq<Event>, grace: int): State {
    if events == [] then State(map[], map[], {}, map[], map[], [], [])
    else Step(Run(events[..|events| - 1], grace), events[|events| - 1], grace)
  }

  /** The last accepted status of a device; offline before the first. */
  function Last(statuses: seq<Status>, device: string): bool {
    if statuses == [] then false
    else
      var n := |statuses| - 1;
      if statuses[n].device == device then statuses[n].online else Last(statuses[..n], device)
  }

  // ----- what every reachable state keeps

  ghost predicate OnlineTrue(sessions: map<string, Row>, statuses: seq<Status>) {
    && (forall d :: d in sessions ==> sessions[d].online == Last(statuses, d))
    && (forall d :: d !in sessions ==> !Last(statuses, d))
  }

  /** A held session is online afterwards as accepted, or else as it was before. */
  lemma HoldsOnline(s: State, e: Event, grace: int)
    ensures Holds(s, e, grace).Some? ==>
      var h := Holds(s, e, grace).value;
      h.row.online == if h.emitted.Accepted? then h.emitted.online else h.device in s.sessions && s.sessions[h.device].online
  {}

  lemma HeldOnline(sessions: map<string, Row>, statuses: seq<Status>, h: Section)
    requires OnlineTrue(sessions, statuses)
    requires h.row.online == if h.emitted.Accepted? then h.emitted.online else h.device in sessions && sessions[h.device].online
    ensures OnlineTrue(Sessions(sessions, Some(h)), Statuses(statuses, Some(h)))
  {
    var after := Statuses(statuses, Some(h));
    if h.emitted.Accepted? {
      assert after[..|statuses|] == statuses;
      assert forall d :: d != h.device ==> Last(after, d) == Last(statuses, d);
    }
  }

  ghost predicate Queued(workers: map<nat, Worker>, worker: nat, device: string) {
    worker in workers && workers[worker].queued && workers[worker].device == device
  }

  predicate Checking(sessions: map<string, Row>, device: string) { device in sessions && sessions[device].checking }

  ghost predicate WorkersOk(sessions: map<string, Row>, workers: map<nat, Worker>) {
    && |workers| <= SLOTS
    && (forall w, w', d :: Queued(workers, w, d) && Queued(workers, w', d) ==> w == w')
    && (forall w, d :: Queued(workers, w, d) ==> Checking(sessions, d))
    && (forall d :: Checking(sessions, d) ==> exists w :: Queued(workers, w, d))
  }

  /** Only a sweep marks a session as being checked, and only its worker takes the mark away. */
  lemma HoldsChecking(s: State, e: Event, grace: int)
    requires !e.Check? && !e.Work? && Holds(s, e, grace).Some?
    ensures var h := Holds(s, e, grace).value; h.row.checking == Checking(s.sessions, h.device)
  {}

  lemma SameCheckingOk(sessions: map<string, Row>, workers: map<nat, Worker>, h: Section)
    requires WorkersOk(sessions, workers) && h.row.checking == Checking(sessions, h.device)
    ensures WorkersOk(Sessions(sessions, Some(h)), workers)
  {
    assert forall d :: Checking(Sessions(sessions, Some(h)), d) <==> Checking(sessions, d);
  }

  lemma CheckOk(sessions: map<string, Row>, workers: map<nat, Worker>, h: Section, worker: nat, now: int)
    requires WorkersOk(sessions, workers) && |workers| < SLOTS && worker !in workers
    requires h.device in sessions && !Checking(sessions, h.device) && h.row.checking
    ensures WorkersOk(Sessions(sessions, Some(h)), workers[worker := Worker(h.device, now, true)])
  {
    var after, more := Sessions(sessions, Some(h)), workers[worker := Worker(h.device, now, true)];
    MapSize(workers, worker, Worker(h.device, now, true));
    assert Checking(after, h.device);
    assert forall d :: Checking(after, d) <==> Checking(sessions, d) || d == h.device;
    assert forall w, d :: Queued(more, w, d) <==> Queued(workers, w, d) || (w == worker && d == h.device);
    forall d | Checking(after, d) ensures exists w :: Queued(more, w, d) {
      if d == h.device {
        assert Queued(more, worker, d);
      } else {
        var w :| Queued(workers, w, d);
        assert Queued(more, w, d);
      }
    }
  }

  lemma MapSize<V>(m: map<nat, V>, k: nat, v: V)
    ensures |m[k := v]| == |m| + if k in m then 0 else 1
    ensures |m - {k}| == |m| - if k in m then 1 else 0
  {
    assert m[k := v].Keys == m.Keys + {k} && (m - {k}).Keys == m.Keys - {k};
    assert |m[k := v].Keys| == |m.Keys| + if k in m then 0 else 1;
    assert |(m - {k}).Keys| == |m.Keys| - if k in m then 1 else 0;
  }

  lemma WorkOk(sessions: map<string, Row>, workers: map<nat, Worker>, h: Section, worker: nat)
    requires WorkersOk(sessions, workers) && Queued(workers, worker, h.device) && !h.row.checking
    ensures WorkersOk(Sessions(sessions, Some(h)), workers[worker := workers[worker].(queued := false)])
  {
    var after, fewer := Sessions(sessions, Some(h)), workers[worker := workers[worker].(queued := false)];
    MapSize(workers, worker, workers[worker].(queued := false));
    assert forall d :: Checking(after, d) <==> Checking(sessions, d) && d != h.device;
    assert forall w, d :: Queued(fewer, w, d) <==> Queued(workers, w, d) && w != worker;
    forall d | Checking(after, d) ensures exists w :: Queued(fewer, w, d) {
      var w :| Queued(workers, w, d);
      assert Queued(fewer, w, d);
    }
  }

  lemma ReleaseOk(sessions: map<string, Row>, workers: map<nat, Worker>, worker: nat)
    requires WorkersOk(sessions, workers) && worker in workers && !workers[worker].queued
    ensures WorkersOk(sessions, workers - {worker})
  {
    MapSize(workers, worker, workers[worker]);
    assert forall w, d :: Queued(workers - {worker}, w, d) <==> Queued(workers, w, d);
  }

  lemma StepKeeps(s: State, e: Event, grace: int)
    requires OnlineTrue(s.sessions, s.statuses) && WorkersOk(s.sessions, s.workers)
    ensures OnlineTrue(Step(s, e, grace).sessions, Step(s, e, grace).statuses)
    ensures WorkersOk(Step(s, e, grace).sessions, Step(s, e, grace).workers)
  {
    var held := Holds(s, e, grace);
    if held.Some? {
      HoldsOnline(s, e, grace);
      HeldOnline(s.sessions, s.statuses, held.value);
    }
    if e.Check? {
      if held.Some? { CheckOk(s.sessions, s.workers, held.value, e.worker, e.now); }
    } else if e.Work? {
      if held.Some? { WorkOk(s.sessions, s.workers, held.value, e.worker); }
    } else if e.Release? {
      if e.worker in s.workers && !s.workers[e.worker].queued { ReleaseOk(s.sessions, s.workers, e.worker); }
    } else if held.Some? {
      HoldsChecking(s, e, grace);
      SameCheckingOk(s.sessions, s.workers, held.value);
    }
  }

  lemma {:induction false} RunKeeps(events: seq<Event>, grace: int)
    ensures OnlineTrue(Run(events, grace).sessions, Run(events, grace).statuses)
    ensures WorkersOk(Run(events, grace).sessions, Run(events, grace).workers)
  {
    if events != [] {
      RunKeeps(events[..|events| - 1], grace);
      StepKeeps(Run(events[..|events| - 1], grace), events[|events| - 1], grace);
    }
  }

  // ----- main results

  /** Main result. In every interleaving a session is online exactly if the last status
      event the handler accepted for its device said so. */
  lemma OnlineIsLastAccepted(events: seq<Event>, grace: int, device: string)
    requires device in Run(events, grace).sessions
    ensures Run(events, grace).sessions[device].online == Last(Run(events, grace).statuses, device)
  {
    RunKeeps(events, grace);
  }

  /** Main result. At most sixteen sweep workers hold a slot, a session is marked as being
      checked exactly while one worker is queued for it, and never are two. */
  lemma SweepersAreBounded(events: seq<Event>, grace: int)
    ensures var s := Run(events, grace);
      && |s.workers| <= 16
      && (forall d :: Checking(s.sessions, d) <==> exists w :: Queued(s.workers, w, d))
      && (forall w, w', d :: Queued(s.workers, w, d) && Queued(s.workers, w', d) ==> w == w')
  {
    RunKeeps(events, grace);
  }

  /** The step makes the handler accept an offline event of the device. */
  predicate GoesOffline(s: State, e: Event, grace: int, device: string) {
    var held := Holds(s, e, grace);
    held.Some? && held.value.device == device && held.value.emitted == Accepted(false)
  }

  /** The current client of the device is the one whose disconnection ends. */
  predicate CurrentLeaves(s: State, e: Event, device: string) {
    && e.LeaveEnd? && Leaves(s, e.client) == Some(device)
    && s.sessions[device].client == Some(e.client) && e.client !in s.takenOver
  }

  predicate WorksOn(s: State, e: Event, device: string) {
    e.Work? && CanWork(s, e.worker) && s.workers[e.worker].device == device
  }

  /** The reading the session was last written with is a whole grace period before the sweep. */
  predicate GraceOver(s: State, e: Event, grace: int, device: string)
    requires WorksOn(s, e, device)
  {
    s.sessions[device].lastSeen + s.sessions[device].interval * grace <= s.workers[e.worker].now
  }

  predicate Justified(s: State, e: Event, grace: int, device: string) {
    || CurrentLeaves(s, e, device)
    || (WorksOn(s, e, device) && (s.sessions[device].client.None? || GraceOver(s, e, grace, device)))
  }

  /** An offline event comes only from the disconnection of the current client,
      or from a sweep of a session that has no client or was last written a whole grace
      period before; and a session ceases to be online by such an event, and in no other way. */
  lemma OfflineIsJustified(s: State, e: Event, grace: int, device: string)
    ensures GoesOffline(s, e, grace, device) ==> device in s.sessions && s.sessions[device].online && Justified(s, e, grace, device)
    ensures device in s.sessions ==> var t := Step(s, e, grace);
      device in t.sessions && (s.sessions[device].online && !t.sessions[device].online <==> GoesOffline(s, e, grace, device))
  {
    HoldsOnline(s, e, grace);
  }

  /** A late disconnection of a client that is not, or no longer, the current one of its
      device changes no session and emits nothing. */
  lemma StaleDisconnectChangesNothing(s: State, client: Client, accepts: bool, grace: int, device: string)
    requires Leaves(s, client) == Some(device) && (s.sessions[device].client != Some(client) || client in s.takenOver)
    ensures var t := Step(s, LeaveEnd(client, accepts), grace);
      t.sessions == s.sessions && t.statuses == s.statuses && t.deviceOf == s.deviceOf && t.workers == s.workers
  {
    assert s.sessions[device := s.sessions[device]] == s.sessions;
  }

  predicate Displaces(e: Event, client: Client, device: string) {
    (e.Connect? && e.device == device && e.client != client) || (e.LeaveEnd? && e.client == client)
  }

  ghost predicate Undisturbed(events: seq<Event>, i: nat, j: nat, client: Client, device: string) {
    forall k :: i <= k < j && k < |events| ==> !Displaces(events[k], client, device)
  }

  predicate IsCurrent(s: State, client: Client, device: string) {
    device in s.sessions && s.sessions[device].client == Some(client)
  }

  lemma StepKeepsClient(s: State, e: Event, grace: int, client: Client, device: string)
    requires IsCurrent(s, client, device) && !Displaces(e, client, device)
    ensures IsCurrent(Step(s, e, grace), client, device)
    ensures GoesOffline(s, e, grace, device) ==> WorksOn(s, e, device) && GraceOver(s, e, grace, device)
  {
    OfflineIsJustified(s, e, grace, device);
  }

  lemma RunNext(events: seq<Event>, grace: int, j: nat)
    requires j < |events|
    ensures Run(events[..j + 1], grace) == Step(Run(events[..j], grace), events[j], grace)
  {
    assert events[..j + 1][..j] == events[..j];
  }

  /** Main result. Once a client is the current one of a device it stays so until another
      client connects for the device or its own disconnection ends. */
  lemma {:induction false} CurrentClientStays(events: seq<Event>, grace: int, i: nat, j: nat, client: Client, device: string)
    requires i <= j <= |events| && Undisturbed(events, i, j, client, device)
    requires IsCurrent(Run(events[..i], grace), client, device)
    ensures IsCurrent(Run(events[..j], grace), client, device)
    decreases j
  {
    if i < j {
      CurrentClientStays(events, grace, i, j - 1, client, device);
      RunNext(events, grace, j - 1);
      StepKeepsClient(Run(events[..j - 1], grace), events[j - 1], grace, client, device);
    }
  }

  // ----- silence

  /** The last reading a device was heard with. */
  function LastHeard(heard: seq<Heard>, device: string): Option<int> {
    if heard == [] then None
    else
      var n := |heard| - 1;
      if heard[n].device == device then Some(heard[n].now) else LastHeard(heard[..n], device)
  }

  /** The device was not heard with a reading after `since`. */
  ghost predicate Quiet(heard: seq<Heard>, device: string, since: int) {
    forall i :: 0 <= i < |heard| && heard[i].device == device ==> heard[i].now <= since
  }

  /** The readings the device was heard with do not go back. */
  ghost predicate Orderly(heard: seq<Heard>, device: string) {
    forall i, j :: 0 <= i < j < |heard| && heard[i].device == device && heard[j].device == device ==> heard[i].now <= heard[j].now
  }

  /** A session was last written with the reading its device was last heard with. */
  ghost predicate HeardOk(sessions: map<string, Row>, heard: seq<Heard>) {
    && (forall d :: d in sessions && LastHeard(heard, d).Some? ==> LastHeard(heard, d).value == sessions[d].lastSeen)
    && (forall d :: d in sessions && sessions[d].client.Some? ==> LastHeard(heard, d).Some?)
    && (forall d :: d !in sessions ==> LastHeard(heard, d).None?)
  }

  lemma HeardMore(heard: seq<Heard>, h: Heard, device: string)
    ensures LastHeard(heard + [h], device) == if h.device == device then Some(h.now) else LastHeard(heard, device)
  {
    assert (heard + [h])[..|heard|] == heard;
  }

  /** Only hearing a device writes its reading, and only a connection gives it a client. */
  lemma HoldsHeard(s: State, e: Event, grace: int)
    ensures Hears(s, e) ==> Holds(s, e, grace).Some? && Holds(s, e, grace).value.device == e.device && Holds(s, e, grace).value.row.lastSeen == e.now
    ensures !Hears(s, e) && Holds(s, e, grace).Some? ==>
      var h := Holds(s, e, grace).value; var d := h.device;
      && (d in s.sessions ==> h.row.lastSeen == s.sessions[d].lastSeen && (h.row.client.Some? ==> s.sessions[d].client.Some?))
      && (d !in s.sessions ==> h.row.client.None?)
  {}

  lemma HeardAdded(sessions: map<string, Row>, heard: seq<Heard>, h: Section, now: int)
    requires HeardOk(sessions, heard) && h.row.lastSeen == now
    ensures HeardOk(Sessions(sessions, Some(h)), heard + [Heard(h.device, now)])
  {
    forall d ensures LastHeard(heard + [Heard(h.device, now)], d) == if h.device == d then Some(now) else LastHeard(heard, d) {
      HeardMore(heard, Heard(h.device, now), d);
    }
  }

  lemma HeardKept(sessions: map<string, Row>, heard: seq<Heard>, h: Section)
    requires HeardOk(sessions, heard)
    requires h.device in sessions ==> h.row.lastSeen == sessions[h.device].lastSeen && (h.row.client.Some? ==> sessions[h.device].client.Some?)
    requires h.device !in sessions ==> h.row.client.None?
    ensures HeardOk(Sessions(sessions, Some(h)), heard)
  {}

  lemma StepHeard(s: State, e: Event, grace: int)
    requires HeardOk(s.sessions, s.heard)
    ensures HeardOk(Step(s, e, grace).sessions, Step(s, e, grace).heard)
  {
    HoldsHeard(s, e, grace);
    var held := Holds(s, e, grace);
    if Hears(s, e) {
      HeardAdded(s.sessions, s.heard, held.value, e.now);
    } else if held.Some? {
      HeardKept(s.sessions, s.heard, held.value);
    }
  }

  lemma {:induction false} RunHeard(events: seq<Event>, grace: int)
    ensures HeardOk(Run(events, grace).sessions, Run(events, grace).heard)
  {
    if events != [] {
      RunHeard(events[..|events| - 1], grace);
      StepHeard(Run(events[..|events| - 1], grace), events[|events| - 1], grace);
    }
  }

  lemma {:induction false} LastHeardAt(heard: seq<Heard>, device: string) returns (i: nat)
    requires LastHeard(heard, device).Some?
    ensures i < |heard| && heard[i] == Heard(device, LastHeard(heard, device).value)
    ensures forall j :: i < j < |heard| ==> heard[j].device != device
  {
    var n := |heard| - 1;
    if heard[n].device == device {
      i := n;
    } else {
      i := LastHeardAt(heard[..n], device);
      assert forall j :: i < j < n ==> heard[j] == heard[..n][j];
    }
  }

  lemma OrderlyLastIsGreatest(heard: seq<Heard>, device: string)
    requires LastHeard(heard, device).Some? && Orderly(heard, device)
    ensures Quiet(heard, device, LastHeard(heard, device).value)
  {
    var i := LastHeardAt(heard, device);
    forall j | 0 <= j < |heard| && heard[j].device == device ensures heard[j].now <= heard[i].now {
      assert j <= i;
    }
  }

  /** Main result. That the grace period is over means that nothing was heard of the device
      all through it, for every time of a sweep, if and only if the reading the device was
      last heard with is the greatest it was heard with. */
  lemma GraceMeansSilenceIff(events: seq<Event>, grace: int, device: string)
    requires var s := Run(events, grace); device in s.sessions && s.sessions[device].client.Some?
    ensures var s := Run(events, grace); var r := s.sessions[device];
      && LastHeard(s.heard, device).Some?
      && ((forall now :: Expired(r, now, grace) ==> Quiet(s.heard, device, now - r.interval * grace))
          <==> Quiet(s.heard, device, LastHeard(s.heard, device).value))
  {
    RunHeard(events, grace);
    var s := Run(events, grace);
    var r := s.sessions[device];
    assert Expired(r, r.lastSeen + r.interval * grace, grace);
  }

  /** Main result. While a client is the current one its device goes offline only after a
      whole grace period in which nothing was heard of it, wherever the readings with which
      the device was heard do not go back. */
  lemma CurrentClientGoesOfflineBySilence(events: seq<Event>, grace: int, i: nat, j: nat, client: Client, device: string)
    requires i <= j < |events| && Undisturbed(events, i, j + 1, client, device)
    requires IsCurrent(Run(events[..i], grace), client, device)
    requires GoesOffline(Run(events[..j], grace), events[j], grace, device)
    ensures var s := Run(events[..j], grace); WorksOn(s, events[j], device) && GraceOver(s, events[j], grace, device)
    ensures var s := Run(events[..j], grace);
      Orderly(s.heard, device) ==> Quiet(s.heard, device, s.workers[events[j].worker].now - s.sessions[device].interval * grace)
  {
    CurrentClientStays(events, grace, i, j, client, device);
    var s := Run(events[..j], grace);
    StepKeepsClient(s, events[j], grace, client, device);
    RunHeard(events[..j], grace);
    if Orderly(s.heard, device) { OrderlyLastIsGreatest(s.heard, device); }
  }

  // Without that: a report takes its reading before it waits for the session.

  lemma Then(events: seq<Event>, s: State, e: Event, s': State, grace: int) returns (longer: seq<Event>)
    requires Run(events, grace) == s && Step(s, e, grace) == s'
    ensures longer == events + [e] && Run(longer, grace) == s'
  {
    longer := events + [e];
    assert longer[..|events|] == events;
  }

  function Late(lastSeen: int, checking: bool, heard: seq<Heard>): State {
    State(map["d" := Row(Some(1), lastSeen, 1, true, checking, 0)], map[1 := "d"], {}, map[],
          if checking then map[0 := Worker("d", 180, true)] else map[], seq(|heard|, _ => Status("d", true)), heard)
  }

  lemma LateReport() returns (events: seq<Event>)
    ensures Run(events, 180) == Late(0, false, [Heard("d", 0), Heard("d", 10), Heard("d", 0)])
  {
    var made := State(map["d" := Row(None, 0, 1, false, false, 0)], map[], {}, map[], map[], [], []);
    events := Then([], Run([], 180), LookUp("d", 1), made, 180);
    events := Then(events, made, Connect(1, "d", 1, None, 0, true), Late(0, false, [Heard("d", 0)]), 180);
    events := Then(events, Late(0, false, [Heard("d", 0)]), Report("d", 10, true), Late(10, false, [Heard("d", 0), Heard("d", 10)]), 180);
    events := Then(events, Late(10, false, [Heard("d", 0), Heard("d", 10)]), Report("d", 0, true),
                   Late(0, false, [Heard("d", 0), Heard("d", 10), Heard("d", 0)]), 180);
  }

  /** A device heard at 10, with a grace period of 180, goes offline at 180, because a report
      that read the clock at 0 held the session after the one that read 10. */
  lemma HeardButOffline() returns (events: seq<Event>)
    ensures var s := Run(events, 180);
      && "d" in s.sessions && s.sessions["d"].client == Some(1) && s.sessions["d"].interval == 1
      && 0 in s.workers && s.workers[0].now == 180
      && GoesOffline(s, Work(0, true), 180, "d") && !Quiet(s.heard, "d", 180 - 1 * 180)
  {
    events := LateReport();
    var heard := [Heard("d", 0), Heard("d", 10), Heard("d", 0)];
    events := Then(events, Late(0, false, heard), Check("d", 180, 0), Late(0, true, heard), 180);
    assert heard[1] == Heard("d", 10);
  }

  /** isCurrent: whether the client may publish and subscribe as its device. */
  predicate MayAct(s: State, client: Client, revision: Option<int>) {
    && client in s.deviceOf && IsCurrent(s, client, s.deviceOf[client])
    && (revision.Some? ==> 0 <= revision.value == s.sessions[s.deviceOf[client]].revision)
  }

  /** Main result. A client that another one has replaced may never act as the device again,
      in any interleaving, unless it connects for the device once more. */
  lemma {:induction false} ReplacedClientNeverActs(events: seq<Event>, grace: int, i: nat, j: nat, client: Client, device: string, revision: Option<int>)
    requires i <= j <= |events| && device in Run(events[..i], grace).sessions && !IsCurrent(Run(events[..i], grace), client, device)
    requires forall k :: i <= k < j && events[k].Connect? && events[k].client == client ==> events[k].device != device
    ensures var s := Run(events[..j], grace);
      && device in s.sessions && !IsCurrent(s, client, device)
      && (client in s.deviceOf && s.deviceOf[client] == device ==> !MayAct(s, client, revision))
    decreases j
  {
    if i < j {
      ReplacedClientNeverActs(events, grace, i, j - 1, client, device, revision);
      RunNext(events, grace, j - 1);
      StepBringsNobodyBack(Run(events[..j - 1], grace), events[j - 1], grace, client, device);
    }
  }

  lemma StepBringsNobodyBack(s: State, e: Event, grace: int, client: Client, device: string)
    requires device in s.sessions && !IsCurrent(s, client, device)
    requires e.Connect? && e.client == client ==> e.device != device
    ensures device in Step(s, e, grace).sessions && !IsCurrent(Step(s, e, grace), client, device)
  {}
}
