/** The license clock: a high-water mark of the readings seen and a latch for a clock
    that went back, and what they mean for device admission. Each transaction is one
    step; it holds the clock row while it works, so a step sees one row. */
module LicenseClock {
  import opened Prelude

  const SLACK := 5 * 60 * 1_000_000_000

  datatype Row = Row(maxSeen: Option<int>, latched: bool)

  /** A stored license: `genuine` says whether its signature, digest and key ID check out,
      `ours` whether it names this deployment. */
  datatype License = License(genuine: bool, ours: bool, notBefore: int, expires: Option<int>, maxDevices: int)

  datatype Db = Db(clock: Row, license: Option<License>, used: nat)

  datatype State = ClockError | InstanceMismatch | NotBefore | Permanent | Expired | Valid

  function Evaluate(l: License, now: int, maxSeen: Option<int>, latched: bool): State {
    if latched || (maxSeen.Some? && now < maxSeen.value - SLACK) then ClockError
    else if !l.ours then InstanceMismatch
    else if now < l.notBefore then NotBefore
    else if l.expires.None? then Permanent
    else if l.expires.value <= now then Expired
    else Valid
  }

  /** observeLicenseClock and checkLicenseClock let this reading pass. */
  predicate Passes(row: Row, now: int) {
    !row.latched && (row.maxSeen.Some? ==> row.maxSeen.value - SLACK <= now)
  }

  function Observe(row: Row, now: int): Row {
    if !Passes(row, now) then row.(latched := true)
    else if row.maxSeen.None? || row.maxSeen.value < now then row.(maxSeen := Some(now))
    else row
  }

  predicate Reconciles(row: Row, now: int) {
    row.maxSeen.Some? ==> row.maxSeen.value <= now
  }

  function Reconcile(row: Row, now: int): Row {
    if Reconciles(row, now) then row.(latched := false) else row
  }

  /** checkDeviceAdmission reads the clock twice: `checked` against the row, and `now`
      against the license, without the row. */
  predicate Admits(db: Db, checked: int, now: int) {
    && Passes(db.clock, checked)
    && db.license.Some? && db.license.value.genuine
    && Evaluate(db.license.value, now, None, false) in {Valid, Permanent}
    && db.used < db.license.value.maxDevices
  }

  /** ImportLicenseRaw. */
  predicate Imports(db: Db, l: License, checked: int, now: int) {
    Passes(db.clock, checked) && l.genuine && Evaluate(l, now, None, false) !in {InstanceMismatch, NotBefore, Expired, ClockError}
  }

  /** RequireLicenseFeature reads the row once and the clock once. */
  predicate FeatureAllowed(db: Db, now: int, enabled: bool) {
    db.license.Some? && db.license.value.genuine && enabled && Evaluate(db.license.value, now, db.clock.maxSeen, db.clock.latched) in {Valid, Permanent}
  }

  // ----- runs

  datatype Event =
    | Observed(now: int)
    | Reconciled(now: int)
    | Imported(license: License, checked: int, now: int)
    | Admission(checked: int, now: int)
    | Disabled

  function Step(db: Db, e: Event): Db {
    match e
    case Observed(now) => db.(clock := Observe(db.clock, now))
    case Reconciled(now) => db.(clock := Reconcile(db.clock, now))
    case Imported(l, checked, now) => if Imports(db, l, checked, now) then db.(license := Some(l)) else db
    case Admission(checked, now) => if Admits(db, checked, now) then db.(used := db.used + 1) else db
    case Disabled => if db.used > 0 then db.(used := db.used - 1) else db
  }

  function Run(start: Db, events: seq<Event>): Db {
    if events == [] then start else Step(Run(start, events[..|events| - 1]), events[|events| - 1])
  }

  function Before(start: Db, events: seq<Event>, i: nat): Db
    requires i <= |events|
  {
    Run(start, events[..i])
  }

  lemma BeforeNext(start: Db, events: seq<Event>, i: nat)
    requires i < |events|
    ensures Before(start, events, i + 1) == Step(Before(start, events, i), events[i])
  {
    assert events[..i + 1][..i] == events[..i];
  }

  predicate AtLeast(mark: Option<int>, t: int) { mark.Some? && t <= mark.value }

  /** Main result. The high-water mark never goes down. */
  lemma {:induction false} MarkNeverFalls(start: Db, events: seq<Event>, i: nat, j: nat, t: int)
    requires i <= j <= |events| && AtLeast(Before(start, events, i).clock.maxSeen, t)
    ensures AtLeast(Before(start, events, j).clock.maxSeen, t)
    decreases j
  {
    if i < j {
      MarkNeverFalls(start, events, i, j - 1, t);
      BeforeNext(start, events, j - 1);
    }
  }

  /** An observation is accepted where the row lets its reading pass. */
  predicate Accepted(start: Db, events: seq<Event>, i: nat) {
    i < |events| && events[i].Observed? && Passes(Before(start, events, i).clock, events[i].now)
  }

  lemma AcceptedIsRecorded(start: Db, events: seq<Event>, i: nat, j: nat)
    requires i < j <= |events| && Accepted(start, events, i)
    ensures AtLeast(Before(start, events, j).clock.maxSeen, events[i].now)
  {
    BeforeNext(start, events, i);
    MarkNeverFalls(start, events, i + 1, j, events[i].now);
  }

  /** Main result. The mark is the greatest reading accepted so far: none is above it,
      and it is one of them, or what the run started with. */
  lemma {:induction false} MarkIsGreatestAccepted(start: Db, events: seq<Event>)
    ensures forall i :: 0 <= i < |events| && Accepted(start, events, i) ==> AtLeast(Run(start, events).clock.maxSeen, events[i].now)
    ensures var mark := Run(start, events).clock.maxSeen;
      mark == start.clock.maxSeen || exists i :: 0 <= i < |events| && Accepted(start, events, i) && mark == Some(events[i].now)
  {
    assert events[..|events|] == events;
    forall i | 0 <= i < |events| && Accepted(start, events, i) ensures AtLeast(Run(start, events).clock.maxSeen, events[i].now) {
      AcceptedIsRecorded(start, events, i, |events|);
    }
    if events != [] {
      var n := |events| - 1;
      MarkIsGreatestAccepted(start, events[..n]);
      var mark := Run(start, events[..n]).clock.maxSeen;
      if Run(start, events).clock.maxSeen != mark {
        assert Accepted(start, events, n);
      } else if mark != start.clock.maxSeen {
        var i :| 0 <= i < n && Accepted(start, events[..n], i) && mark == Some(events[..n][i].now);
        assert events[..n][..i] == events[..i];
        assert Accepted(start, events, i);
      }
    }
  }

  /** The latch is cleared by a reconciliation at or past the mark, and by nothing else. */
  lemma LatchClears(db: Db, e: Event)
    requires db.clock.latched
    ensures !Step(db, e).clock.latched <==> e.Reconciled? && Reconciles(db.clock, e.now)
  {}

  /** Some event of the stretch reconciles the clock at a reading of at least `t`. */
  ghost predicate ReconciledFrom(events: seq<Event>, i: nat, j: nat, t: int) {
    exists k :: i <= k < j && k < |events| && events[k].Reconciled? && t <= events[k].now
  }

  lemma {:induction false} LatchHolds(start: Db, events: seq<Event>, i: nat, j: nat, t: int)
    requires i <= j <= |events|
    requires Before(start, events, i).clock.latched && AtLeast(Before(start, events, i).clock.maxSeen, t)
    requires !ReconciledFrom(events, i, j, t)
    ensures Before(start, events, j).clock.latched
    decreases j
  {
    if i < j {
      LatchHolds(start, events, i, j - 1, t);
      MarkNeverFalls(start, events, i, j - 1, t);
      BeforeNext(start, events, j - 1);
      LatchClears(Before(start, events, j - 1), events[j - 1]);
    }
  }

  /** Main result. Once a reading `t` was accepted and a later one was more than five minutes
      behind, nothing is admitted or imported until someone reconciles at `t` or later. */
  lemma ClockGoneBackStopsAdmission(start: Db, events: seq<Event>, i: nat, b: nat, j: nat)
    requires i < b < j < |events| && Accepted(start, events, i)
    requires events[b].Observed? && events[b].now < events[i].now - SLACK
    requires !ReconciledFrom(events, b + 1, j, events[i].now)
    requires events[j].Admission? || events[j].Imported?
    ensures Before(start, events, j + 1) == Before(start, events, j)
  {
    AcceptedIsRecorded(start, events, i, b);
    BeforeNext(start, events, b);
    MarkNeverFalls(start, events, b, b + 1, events[i].now);
    LatchHolds(start, events, b + 1, j, events[i].now);
    BeforeNext(start, events, j);
  }

  /** Main result. After a reading at or past the expiry of a license was accepted, a device
      is admitted under that license only at readings inside the last five minutes before it
      expires: the reading checked against the mark is not before them, the one checked
      against the license not after, and both are inside if the clock did not go back between. */
  lemma ExpiryOnceSeenEndsAdmission(start: Db, events: seq<Event>, i: nat, j: nat, e: int)
    requires i < j < |events| && Accepted(start, events, i) && e <= events[i].now
    requires events[j].Admission? && Before(start, events, j + 1) != Before(start, events, j)
    requires Before(start, events, j).license.Some? && Before(start, events, j).license.value.expires == Some(e)
    ensures e - SLACK <= events[j].checked && events[j].now < e
    ensures events[j].checked <= events[j].now ==> e - SLACK <= events[j].checked <= events[j].now < e
  {
    AcceptedIsRecorded(start, events, i, j);
    BeforeNext(start, events, j);
  }

  /** A feature is never granted outside that window: there the mark and the license are
      checked against the same reading. */
  lemma ExpiryOnceSeenEndsFeatures(start: Db, events: seq<Event>, i: nat, j: nat, e: int, now: int, enabled: bool)
    requires i < j <= |events| && Accepted(start, events, i) && e <= events[i].now
    requires FeatureAllowed(Before(start, events, j), now, enabled)
    requires Before(start, events, j).license.value.expires == Some(e)
    ensures e - SLACK <= now < e
  {
    AcceptedIsRecorded(start, events, i, j);
  }

  /** The second reading of an admission may lie before the window, if the clock goes back
      between the two. How far it may go back without harm is exactly how far the mark is
      past the expiry, unless the license is not yet valid before the window at all. */
  lemma HowFarTheClockMayGoBack(db: Db, e: int, back: nat)
    requires !db.clock.latched && AtLeast(db.clock.maxSeen, e)
    requires db.license.Some? && db.license.value.expires == Some(e) && db.license.value.ours && db.license.value.genuine
    requires db.license.value.notBefore < e && db.used < db.license.value.maxDevices
    ensures (forall checked, now :: checked - back <= now && Admits(db, checked, now) ==> e - SLACK <= now)
      <==> back <= db.clock.maxSeen.value - e || e - SLACK <= db.license.value.notBefore
  {
    var mark, l := db.clock.maxSeen.value, db.license.value;
    if back > mark - e && l.notBefore < e - SLACK {
      var checked := mark - SLACK;
      var now := if l.notBefore < checked - back then checked - back else l.notBefore;
      assert Evaluate(l, now, None, false) == Valid;
      assert Admits(db, checked, now) && checked - back <= now && now < e - SLACK;
    }
  }

  /** It happens: the license expires at ten times the slack, a reading at expiry was accepted,
      and an admission that checks the mark at the start of the window and the license at
      zero, long before the window, succeeds. */
  lemma AdmittedLongBefore() returns (start: Db, events: seq<Event>, e: int)
    ensures |events| == 2 && Accepted(start, events, 0) && events[0].now == e && events[1].Admission?
    ensures start.license.Some? && start.license.value.expires == Some(e)
    ensures Run(start, events).used == start.used + 1 && events[1].now < e - SLACK
  {
    e := 10 * SLACK;
    start := Db(Row(None, false), Some(License(true, true, 0, Some(e), 1)), 0);
    events := [Observed(e), Admission(9 * SLACK, 0)];
    assert events[..1] == [Observed(e)] && events[..0] == [] && [Observed(e)][..0] == [];
    assert Run(start, events[..1]) == Step(Run(start, []), Observed(e));
    assert Evaluate(start.license.value, 0, None, false) == Valid;
  }

  /** Every admission leaves the devices within the quota of the license in force. */
  lemma AdmissionKeepsQuota(db: Db, e: Event)
    requires e.Admission? && Step(db, e) != db
    ensures Step(db, e).used == db.used + 1 && Step(db, e).license == db.license && Step(db, e).clock == db.clock
    ensures db.license.Some? && Step(db, e).used <= db.license.value.maxDevices
  {}

  // ----- under which licenses

  /** The reading is not more than five minutes behind the mark, and nobody has latched the clock. */
  predicate ClockHolds(row: Row, t: int) { !row.latched && (row.maxSeen.None? || row.maxSeen.value <= t + 5 * 60 * 1_000_000_000) }

  /** Begun and not over; a license without an expiry is never over. */
  predicate InForce(l: License, now: int) { l.genuine && l.ours && l.notBefore <= now && (l.expires.None? || now < l.expires.value) }

  /** Main result. One more device is admitted exactly if the clock holds and there is a license that
      is genuine, ours, begun, not over, and has room; whatever else is asked changes nothing. */
  lemma AdmittedIff(db: Db, checked: int, now: int)
    ensures var after := Step(db, Admission(checked, now));
      if ClockHolds(db.clock, checked) && db.license.Some? && InForce(db.license.value, now) && db.used < db.license.value.maxDevices
      then after == Db(db.clock, db.license, db.used + 1)
      else after == db
  {}

  /** A license replaces the one before exactly if the clock holds and it is genuine, ours, begun
      and not over; the devices stay. */
  lemma ImportedIff(db: Db, l: License, checked: int, now: int)
    ensures var after := Step(db, Imported(l, checked, now));
      after == if ClockHolds(db.clock, checked) && InForce(l, now) then Db(db.clock, Some(l), db.used) else db
  {}

  /** A feature is granted exactly if it is enabled and the same holds, all for one reading. */
  lemma FeatureIff(db: Db, now: int, enabled: bool)
    ensures FeatureAllowed(db, now, enabled) <==>
      enabled && ClockHolds(db.clock, now) && db.license.Some? && InForce(db.license.value, now)
  {}

  /** The license the run started with, or one it took in when it was in force. */
  ghost predicate TakenIn(start: Db, events: seq<Event>, j: nat, l: License) {
    start.license == Some(l) || exists i :: 0 <= i < j && i < |events| && events[i].Imported? && events[i].license == l && InForce(l, events[i].now)
  }

  lemma {:induction false} LicenseWasTakenIn(start: Db, events: seq<Event>, j: nat)
    requires j <= |events| && Before(start, events, j).license.Some?
    ensures TakenIn(start, events, j, Before(start, events, j).license.value)
  {
    if j > 0 {
      BeforeNext(start, events, j - 1);
      if events[j - 1].Imported? { ImportedIff(Before(start, events, j - 1), events[j - 1].license, events[j - 1].checked, events[j - 1].now); }
      if Before(start, events, j - 1).license == Before(start, events, j).license { LicenseWasTakenIn(start, events, j - 1); }
    }
  }

  /** Main result. No run that starts without a license admits a device under one that is not
      genuine or not ours, or that was not in force both when it was taken in and when the device came. */
  lemma AdmittedUnderGenuineLicense(start: Db, events: seq<Event>, j: nat)
    requires start.license.None? && j < |events| && events[j].Admission? && Before(start, events, j + 1).used > Before(start, events, j).used
    ensures var db := Before(start, events, j);
      && db.license.Some? && InForce(db.license.value, events[j].now) && TakenIn(start, events, j, db.license.value)
      && db.used < db.license.value.maxDevices
  {
    BeforeNext(start, events, j);
    AdmittedIff(Before(start, events, j), events[j].checked, events[j].now);
    LicenseWasTakenIn(start, events, j);
  }

  /** A run that takes in a permanent license of ours, with a clock that never went back, goes on to
      admit devices at any later reading until the quota is reached. */
  lemma {:induction false} PermanentLicenseAdmits(l: License, imported: int, times: seq<int>)
    requires l.genuine && l.ours && l.expires.None? && l.notBefore <= imported
    requires forall i :: 0 <= i < |times| ==> imported <= times[i]
    ensures var events := [Imported(l, imported, imported)] + seq(|times|, i requires 0 <= i < |times| => Admission(times[i], times[i]));
      var after := Run(Db(Row(None, false), None, 0), events);
      && after.license == Some(l) && after.clock == Row(None, false)
      && after.used == if |times| <= l.maxDevices then |times| else if l.maxDevices < 0 then 0 else l.maxDevices
  {
    var start := Db(Row(None, false), None, 0);
    var events := [Imported(l, imported, imported)] + seq(|times|, i requires 0 <= i < |times| => Admission(times[i], times[i]));
    var init := events[..|events| - 1];
    if times == [] {
      assert init == [];
      ImportedIff(start, l, imported, imported);
    } else {
      var fewer := times[..|times| - 1];
      assert init == [Imported(l, imported, imported)] + seq(|fewer|, i requires 0 <= i < |fewer| => Admission(fewer[i], fewer[i]));
      PermanentLicenseAdmits(l, imported, fewer);
      AdmittedIff(Run(start, init), times[|times| - 1], times[|times| - 1]);
    }
  }

  // ----- the rows

  class LicenseRows {
    var maxSeen: Option<int>
    var latched: bool
    var license: Option<License>
    var used: nat

    ghost function View(): Db reads this { Db(Row(maxSeen, latched), license, used) }

    constructor ()
      ensures View() == Db(Row(None, false), None, 0)
    {
      maxSeen, latched, license, used := None, false, None, 0;
    }

    method ObserveLicenseClock(now: int) returns (ok: bool)
      modifies this`maxSeen, this`latched
      ensures View() == Step(old(View()), Observed(now)) && ok == Passes(old(View()).clock, now)
    {
      if latched || (maxSeen.Some? && now < maxSeen.value - SLACK) {
        if !latched { latched := true; }
        return false;
      }
      if maxSeen.None? || maxSeen.value < now { maxSeen := Some(now); }
      ok := true;
    }

    method ReconcileLicenseClock(now: int) returns (ok: bool)
      modifies this`latched
      ensures View() == Step(old(View()), Reconciled(now)) && ok == Reconciles(old(View()).clock, now)
    {
      if maxSeen.Some? && now < maxSeen.value { return false; }
      if !latched { return true; }
      latched := false;
      ok := true;
    }

    method CheckLicenseClock(now: int) returns (ok: bool)
      ensures ok == Passes(View().clock, now)
    {
      if latched || (maxSeen.Some? && now < maxSeen.value - SLACK) { return false; }
      ok := true;
    }

    method CheckDeviceAdmission(checked: int, now: int) returns (ok: bool)
      ensures ok == Admits(View(), checked, now)
    {
      ok := CheckLicenseClock(checked);
      if !ok { return false; }
      if license.None? || !license.value.genuine { return false; }
      var state := Evaluate(license.value, now, None, false);
      if state != Valid && state != Permanent { return false; }
      if license.value.maxDevices <= used { return false; }
    }

    /** The admission inside RegisterDevice and RestoreDevice. */
    method Admit(checked: int, now: int) returns (ok: bool)
      modifies this`used
      ensures View() == Step(old(View()), Admission(checked, now)) && ok == Admits(old(View()), checked, now)
    {
      ok := CheckDeviceAdmission(checked, now);
      if ok { used := used + 1; }
    }
  }
}
