/** The access server: session objects changed under their own lock, found through a
    registry that is never locked while they are. */
module AccessServer {
  import opened Prelude
  import opened SessionRegistry

  class Session {
    var client: Option<Client>
    var lastSeen: int
    var interval: int
    var online: bool
    var checking: bool
    var revision: int

    ghost function View(): Row reads this { Row(client, lastSeen, interval, online, checking, revision) }

    constructor (interval: int)
      ensures View() == Row(None, 0, interval, false, false, 0)
    {
      client, lastSeen, this.interval, online, checking, revision := None, 0, interval, false, false, 0;
    }

    /** `accepts` is the answer of the event handler. */
    method SetOnline(to: bool, accepts: bool) returns (emitted: Emitted)
      modifies this`online
      ensures (View(), emitted) == Transition(old(View()), to, accepts)
    {
      if online == to && !to { return Nothing; }
      if !accepts { return Failed; }
      online := to;
      emitted := Accepted(to);
    }
  }

  class Server {
    var sessions: map<string, Session>
    var deviceOf: map<Client, string>

    /** No two devices share a session. */
    ghost predicate Valid() reads this {
      forall d, e :: d in sessions && e in sessions && sessions[d] == sessions[e] ==> d == e
    }

    ghost function View(): map<string, Row> reads this, sessions.Values {
      map d | d in sessions :: sessions[d].View()
    }

    constructor ()
      ensures Valid() && View() == map[] && deviceOf == map[]
    {
      sessions, deviceOf := map[], map[];
    }

    twostate lemma OneTouched(device: string)
      requires old(Valid()) && device in sessions && sessions == old(sessions)
      requires forall x :: x in sessions.Values && x != sessions[device] ==> unchanged(x)
      ensures Valid() && View() == old(View())[device := sessions[device].View()]
    {
      forall d | d in sessions && d != device ensures unchanged(sessions[d]) { assert sessions[d] in sessions.Values; }
    }

    method LookUp(device: string, create: bool, interval: int) returns (s: Option<Session>)
      requires Valid()
      modifies this`sessions
      ensures Valid() && s == if device in sessions then Some(sessions[device]) else None
      ensures forall d :: d in old(sessions) ==> d in sessions && sessions[d] == old(sessions)[d]
      ensures View() == if create && device !in old(sessions) then old(View())[device := Row(None, 0, interval, false, false, 0)] else old(View())
    {
      if device in sessions { return Some(sessions[device]); }
      if !create { return None; }
      var fresh' := new Session(interval);
      forall d | d in sessions ensures sessions[d] != fresh' && unchanged(sessions[d]) { assert sessions[d] in old(sessions.Values); }
      sessions := sessions[device := fresh'];
      assert View() == old(View())[device := fresh'.View()];
      s := Some(fresh');
    }

    /** connected, from where it has locked the session. `gone` says of a client whether it was
        taken over or is closed; the client to retire is the one this one replaces. */
    method Connected(c: Client, takenOver: bool, device: string, interval: int, revision: Option<int>, now: int, accepts: bool, gone: Client -> bool)
      returns (emitted: Emitted, retire: Option<Client>)
      requires Valid() && device in sessions
      modifies this`deviceOf, sessions[device]
      ensures Valid()
      ensures var (row, answer) := SessionRegistry.Connected(old(View())[device], c, takenOver, interval, revision, now, accepts);
        View() == old(View())[device := row] && emitted == answer
      ensures deviceOf == if Rejected(takenOver, revision) then old(deviceOf) else old(deviceOf)[c := device]
      ensures var replaced := old(View())[device].client;
        retire == if !Rejected(takenOver, revision) && replaced.Some? && replaced.value != c && !gone(replaced.value) then replaced else None
    {
      var s := sessions[device];
      if takenOver || (revision.Some? && revision.value < 0) {
        OneTouched(device);
        return Nothing, None;
      }
      var replaced := s.client;
      if revision.Some? { s.revision := revision.value; }
      deviceOf := deviceOf[c := device];
      s.client := Some(c);
      s.interval := interval;
      s.lastSeen := now;
      emitted := s.SetOnline(true, accepts);
      OneTouched(device);
      retire := if replaced.Some? && replaced.value != c && !gone(replaced.value) then replaced else None;
    }

    /** The heartbeat in handleReport. */
    method Reported(device: string, now: int, accepts: bool) returns (emitted: Emitted)
      requires Valid() && device in sessions
      modifies sessions[device]
      ensures Valid()
      ensures var (row, answer) := SessionRegistry.Reported(old(View())[device], now, accepts);
        View() == old(View())[device := row] && emitted == answer
    {
      var s := sessions[device];
      emitted := Nothing;
      if s.client.Some? {
        s.lastSeen := now;
        emitted := s.SetOnline(true, accepts);
      }
      OneTouched(device);
    }

    /** disconnected, from where it has locked the session. */
    method Disconnected(c: Client, takenOver: bool, device: string, accepts: bool) returns (emitted: Emitted)
      requires Valid() && device in sessions
      modifies sessions[device]
      ensures Valid()
      ensures var (row, answer) := SessionRegistry.Disconnected(old(View())[device], c, takenOver, accepts);
        View() == old(View())[device := row] && emitted == answer
    {
      var s := sessions[device];
      emitted := Nothing;
      if s.client == Some(c) && !takenOver {
        s.client := None;
        emitted := s.SetOnline(false, accepts);
      }
      OneTouched(device);
    }

    /** A sweep worker, from where it has locked the session. */
    method Work(device: string, now: int, grace: int, accepts: bool) returns (emitted: Emitted)
      requires Valid() && device in sessions
      modifies sessions[device]
      ensures Valid()
      ensures var (row, answer) := Worked(old(View())[device], now, grace, accepts);
        View() == old(View())[device := row] && emitted == answer
    {
      var s := sessions[device];
      emitted := Nothing;
      if s.client.None? || s.lastSeen + s.interval * grace <= now {
        emitted := s.SetOnline(false, accepts);
      }
      s.checking := false;
      OneTouched(device);
    }

    /** The sweep's look at one session; true if it marked the session for a worker. */
    method Start(device: string, now: int, grace: int, slot: bool) returns (started: bool)
      requires Valid() && device in sessions
      modifies sessions[device]
      ensures Valid() && started == (slot && Sweeps(old(View())[device], now, grace))
      ensures View() == if started then old(View())[device := old(View())[device].(checking := true)] else old(View())
    {
      var s := sessions[device];
      var expired := s.client.None? || s.lastSeen + s.interval * grace <= now;
      if s.checking || !s.online || !expired { return false; }
      if !slot { return false; }
      s.checking := true;
      OneTouched(device);
      started := true;
    }

    /** sweep, where `free` says whose lock is free and `inUse` slots are taken when it
        starts. It marks and returns distinct sessions that are due, and it leaves one out
        that is due and free only when the slots are gone. */
    method Sweep(now: int, grace: int, free: string -> bool, inUse: nat) returns (started: seq<string>)
      requires Valid() && inUse <= SLOTS
      modifies sessions.Values
      ensures Valid() && |started| + inUse <= SLOTS
      ensures forall i, j :: 0 <= i < j < |started| ==> started[i] != started[j]
      ensures forall d :: d in started ==> Due(old(View()), d, now, grace, free)
      ensures |started| + inUse < SLOTS ==> forall d :: Due(old(View()), d, now, grace, free) ==> d in started
      ensures View() == Marked(old(View()), started)
    {
      started := [];
      var todo := sessions.Keys;
      ghost var rows := View();
      while todo != {}
        invariant Valid() && todo <= sessions.Keys && |started| + inUse <= SLOTS
        invariant Begun(rows, started, todo, now, grace, free, |started| + inUse < SLOTS)
        invariant View() == Marked(rows, started)
        decreases |todo|
      {
        var device :| device in todo;
        BegunNext(rows, started, todo, now, grace, free, |started| + inUse < SLOTS, device);
        todo := todo - {device};
        if free(device) {
          assert sessions[device] in sessions.Values;
          var marked := Start(device, now, grace, |started| + inUse < SLOTS);
          if marked { started := started + [device]; }
        }
      }
    }
  }

  /** A sweep that has `todo` left: it started distinct due sessions among the others, and
      all of them while it had slots. */
  ghost predicate Begun(rows: map<string, Row>, started: seq<string>, todo: set<string>, now: int, grace: int, free: string -> bool, slots: bool) {
    && (forall i, j :: 0 <= i < j < |started| ==> started[i] != started[j])
    && (forall d :: d in started ==> d !in todo && Due(rows, d, now, grace, free))
    && (slots ==> forall d :: Due(rows, d, now, grace, free) ==> d in todo || d in started)
  }

  lemma BegunNext(rows: map<string, Row>, started: seq<string>, todo: set<string>, now: int, grace: int, free: string -> bool, slots: bool, device: string)
    requires Begun(rows, started, todo, now, grace, free, slots) && device in todo && device in rows
    ensures Marked(rows, started)[device] == rows[device] && device !in started
    ensures !(slots && Due(rows, device, now, grace, free)) ==> Begun(rows, started, todo - {device}, now, grace, free, slots)
    ensures slots && Due(rows, device, now, grace, free) ==> forall left: bool :: Begun(rows, started + [device], todo - {device}, now, grace, free, left)
    ensures Marked(rows, started + [device]) == Marked(rows, started)[device := rows[device].(checking := true)]
  {
    MarkedNext(rows, started, device);
  }

  /** The session is due for a sweep worker and its lock is free. */
  predicate Due(rows: map<string, Row>, device: string, now: int, grace: int, free: string -> bool) {
    device in rows && free(device) && Sweeps(rows[device], now, grace)
  }

  function Marked(rows: map<string, Row>, started: seq<string>): map<string, Row> {
    map d | d in rows :: if d in started then rows[d].(checking := true) else rows[d]
  }

  lemma MarkedNext(rows: map<string, Row>, started: seq<string>, device: string)
    requires device in rows && device !in started
    ensures Marked(rows, started)[device] == rows[device]
    ensures Marked(rows, started + [device]) == Marked(rows, started)[device := rows[device].(checking := true)]
  {}
}
