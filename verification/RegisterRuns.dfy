/** What becomes of a call that answers its challenge rightly, while other calls and
    challenges go on in between. */
module RegisterRuns {
  import opened Prelude
  import opened Register
  import N = NonceStore

  predicate Lifetime(seconds: int) { seconds == 0 || 60 <= seconds <= 3600 }

  /** The request presents the nonce of this record for the same device, realm, peer and
      URI, from an allowed peer and with the digest of the device's password. */
  predicate RightlyAnswers(req: Request, device: Lookup, nonce: string, record: N.Record, md5: string -> string) {
    && Precheck(req, device).None? && req.authorization.value.nonce == nonce
    && record.device == req.device && record.realm == device.realm && record.peer == req.source && record.uri == req.uri
    && Digest(req.authorization.value, req.verb, device.password, md5) == Some(Lower(req.authorization.value.response))
  }

  lemma PostcheckRight(req: Request, device: Lookup, nonce: string, record: N.Record, answer: N.Answer, later: int, md5: string -> string)
    requires RightlyAnswers(req, device, nonce, record, md5) && (answer.Taken? ==> answer.record == record)
    ensures Postcheck(req, device, answer, later, md5).None? <==> answer.Taken? && later < record.expires && Lifetime(req.expires)
  {}

  lemma EndedInPrefix(log: seq<N.Event>, e: N.Event, i: nat, nonce: string, expires: int)
    ensures N.EndedBy(log + [e], i, |log|, nonce, expires) <==> N.EndedBy(log, i, |log|, nonce, expires)
  {
    forall k: nat | k < |log| ensures N.EndsAt(log + [e], k, nonce, expires) <==> N.EndsAt(log, k, nonce, expires) {
      assert (log + [e])[..k] == log[..k];
    }
  }

  /** What asking for an issued nonce now would be answered. */
  lemma AnswerNow(log: seq<N.Event>, i: nat, now: int) returns (answer: N.Answer)
    requires N.Allowed(log) && i < |log| && log[i].Issued? && now != 0
    ensures answer == N.AfterConsume(N.Run(log), log[i].nonce, now).1
    ensures answer.Taken? <==> now < log[i].record.expires && !N.EndedBy(log, i, |log|, log[i].nonce, log[i].record.expires)
    ensures answer.Taken? ==> answer.record == log[i].record
  {
    var e := N.Consumed(log[i].nonce, now);
    var more := log + [e];
    AllowedMore(log, e);
    assert more[..|log|] == log && log[..|log|] == log;
    N.TakenIffStillOpen(more, i, |log|);
    EndedInPrefix(log, e, i, log[i].nonce, log[i].record.expires);
    N.OpenUntilEnded(log, i, |log|);
    answer := N.AnswerAt(more, |log|);
  }

  /** The nonce issued at place `i` is open at this reading. */
  ghost predicate OpenAt(log: seq<N.Event>, i: nat, now: int) {
    i < |log| && log[i].Issued? && now < log[i].record.expires && !N.EndedBy(log, i, |log|, log[i].nonce, log[i].record.expires)
  }

  predicate IsAccepted(s: System, call: nat) { call in s.calls && s.calls[call].Accepted? }

  lemma AcceptedIff(s: System, call: nat, device: Lookup, now: int, later: int, md5: string -> string, i: nat)
    requires Inv(s) && call in s.calls && s.calls[call].Looking? && now != 0
    requires i < |s.log| && s.log[i].Issued? && RightlyAnswers(s.calls[call].req, device, s.log[i].nonce, s.log[i].record, md5)
    ensures var t := StepAuthenticate(s, call, device, now, later, md5); var req := s.calls[call].req;
      && (IsAccepted(t, call) <==> OpenAt(s.log, i, now) && later < s.log[i].record.expires && Lifetime(req.expires))
      && (IsAccepted(t, call) ==> t.calls[call].req == req && t.replies == s.replies)
      && (!IsAccepted(t, call) ==> call !in t.calls && |t.replies| == |s.replies| + 1 && t.replies[|s.replies|].Refused?)
  {
    var req := s.calls[call].req;
    var answer := AnswerNow(s.log, i, now);
    PostcheckRight(req, device, s.log[i].nonce, s.log[i].record, answer, later, md5);
  }

  // ----- the way of a call after authentication

  datatype Phase = Waiting | Applying | Succeeded | Turned

  predicate Replied200(s: System, call: nat, from: nat) {
    exists j :: from <= j < |s.replies| && s.replies[j].Fresh? && s.replies[j].call == call
  }

  predicate InPhase(s: System, call: nat, req: Request, from: nat, phase: Phase) {
    from <= |s.replies| &&
    match phase
    case Waiting => call in s.calls && s.calls[call].Accepted? && s.calls[call].req == req && !Replied200(s, call, from)
    case Applying => call in s.calls && s.calls[call].Applied? && s.calls[call].req == req && !Replied200(s, call, from)
    case Succeeded => call !in s.calls && Replied200(s, call, from)
    case Turned => call !in s.calls && !Replied200(s, call, from)
  }

  predicate Concerns(e: Event, call: nat) { !e.Challenge? && e.call == call }

  /** The device store takes the registration: nobody else is registered at the peer, and it is written. */
  predicate Registers(e: Event, call: nat, req: Request) {
    e.Apply? && e.call == call && e.applied && (e.peer.NoPeer? || (e.peer.PeerOf? && (e.peer.device == "" || e.peer.device == req.device)))
  }

  function Next(phase: Phase, e: Event, call: nat, req: Request): Phase {
    if !Concerns(e, call) then phase
    else if phase.Waiting? then (if Registers(e, call, req) then Applying else Turned)
    else if phase.Applying? then Succeeded
    else phase
  }

  lemma RepliesOf(s: System, t: System, call: nat, from: nat)
    requires from <= |s.replies| <= |t.replies| <= |s.replies| + 1 && t.replies[..|s.replies|] == s.replies
    ensures Replied200(t, call, from) <==>
      Replied200(s, call, from) || (|t.replies| > |s.replies| && t.replies[|s.replies|].Fresh? && t.replies[|s.replies|].call == call)
  {
    assert forall j :: 0 <= j < |s.replies| ==> t.replies[j] == s.replies[j];
    if |t.replies| > |s.replies| && t.replies[|s.replies|].Fresh? && t.replies[|s.replies|].call == call { assert t.replies[|s.replies|].call == call; }
  }

  /** An event adds at most one reply, of the call it belongs to, and leaves the other calls as they are. */
  ghost predicate Shaped(s: System, t: System, e: Event) {
    && |s.replies| <= |t.replies| <= |s.replies| + 1 && t.replies[..|s.replies|] == s.replies
    && (|t.replies| > |s.replies| ==> Concerns(e, t.replies[|s.replies|].call))
    && forall c :: !Concerns(e, c) ==> (c in t.calls <==> c in s.calls) && (c in s.calls ==> t.calls[c] == s.calls[c])
  }

  lemma BeginShape(s: System, e: Event, cache: map<string, Cached>, answer: Option<Response>)
    requires e.Begin? && e.call !in s.calls
    ensures Shaped(s, Begun(s, e.call, e.req, cache, answer), e)
  {}

  lemma AuthenticatedShape(s: System, e: Event, req: Request, asked: N.Event, error: Option<Error>)
    requires e.Authenticate?
    ensures Shaped(s, Authenticated(s, e.call, req, asked, error), e)
  {}

  lemma AuthenticateShape(s: System, e: Event, md5: string -> string)
    requires e.Authenticate? && e.call in s.calls
    ensures Shaped(s, StepAuthenticate(s, e.call, e.device, e.now, e.later, md5), e)
  {
    var req := s.calls[e.call].req;
    if Precheck(req, e.device).None? {
      var nonce := req.authorization.value.nonce;
      AuthenticatedShape(s, e, req, N.Consumed(nonce, e.now), Postcheck(req, e.device, N.AfterConsume(N.Run(s.log), nonce, e.now).1, e.later, md5));
    }
  }

  lemma ApplyShape(s: System, e: Event)
    requires e.Apply? && e.call in s.calls && s.calls[e.call].Accepted?
    ensures Shaped(s, StepApply(s, e.call, e.peer, e.applied, e.now), e)
  {}

  lemma RememberShape(s: System, e: Event)
    requires e.Remember? && e.call in s.calls && s.calls[e.call].Applied?
    ensures Shaped(s, StepRemember(s, e.call, e.now, e.victim), e)
  {}

  lemma StepShape(s: System, e: Event, md5: string -> string)
    requires Enabled(s, e)
    ensures Shaped(s, Step(s, e, md5), e)
  {
    match e
    case Challenge(_, _, _) =>
    case Begin(_, req, now) => BeginShape(s, e, AfterLookUp(s.cache, req, now), LookUp(s.cache, req, now));
    case Authenticate(_, _, _, _) => AuthenticateShape(s, e, md5);
    case Apply(_, _, _, _) => ApplyShape(s, e);
    case Remember(_, _, _) => RememberShape(s, e);
  }

  lemma StepPhase(s: System, e: Event, md5: string -> string, call: nat, req: Request, from: nat, phase: Phase)
    requires Enabled(s, e) && InPhase(s, call, req, from, phase) && !(e.Begin? && e.call == call)
    ensures InPhase(Step(s, e, md5), call, req, from, Next(phase, e, call, req))
  {
    StepShape(s, e, md5);
    RepliesOf(s, Step(s, e, md5), call, from);
  }

  ghost predicate RegisteredBy(events: seq<Event>, a: nat, n: nat, call: nat, req: Request) {
    exists p :: a < p < n && p < |events| && Registers(events[p], call, req)
  }

  lemma RunNext(events: seq<Event>, md5: string -> string, n: nat)
    requires n < |events| && Run(events[..n + 1], md5).Some?
    ensures Run(events[..n], md5).Some? && Enabled(Run(events[..n], md5).value, events[n])
    ensures Run(events[..n + 1], md5).value == Step(Run(events[..n], md5).value, events[n], md5)
  {
    assert events[..n + 1][..n] == events[..n];
  }

  lemma {:induction false} Downwards(holds: nat -> bool, n: nat, m: nat)
    requires n <= m && holds(m) && forall k: nat :: k < m && holds(k + 1) ==> holds(k)
    ensures holds(n)
  {
    if n < m {
      assert holds(m - 1 + 1);
      Downwards(holds, n, m - 1);
    }
  }

  ghost function Possible(events: seq<Event>, md5: string -> string): nat -> bool {
    (n: nat) => n <= |events| && Run(events[..n], md5).Some?
  }

  lemma RunPrefix(events: seq<Event>, md5: string -> string, n: nat)
    requires n <= |events|
    ensures Run(events, md5).Some? ==> Run(events[..n], md5).Some?
  {
    var possible := Possible(events, md5);
    assert events[..|events|] == events;
    forall k: nat | k < |events| && possible(k + 1) ensures possible(k) { RunNext(events, md5, k); }
    if possible(|events|) { Downwards(possible, n, |events|); }
  }

  /** Every event after `a` takes the call from phase to phase, and only a waiting call is registered. */
  ghost predicate PhasesMove(in_: (nat, Phase) -> bool, events: seq<Event>, a: nat, n: nat, call: nat, req: Request) {
    forall m: nat, p: Phase :: a < m < n && m < |events| && in_(m, p) ==>
      in_(m + 1, Next(p, events[m], call, req)) && (Registers(events[m], call, req) ==> p == Waiting)
  }

  /** `in_(n, phase)` stands for the state before event `n`; the phase says whether the call was registered. */
  lemma {:induction false} PhasesAlong(in_: (nat, Phase) -> bool, events: seq<Event>, a: nat, n: nat, call: nat, req: Request, start: Phase) returns (phase: Phase)
    requires a < n <= |events| && start in {Waiting, Turned} && in_(a + 1, start)
    requires PhasesMove(in_, events, a, n, call, req)
    ensures in_(n, phase) && (start == Turned ==> phase == Turned)
    ensures start == Waiting ==> (phase in {Applying, Succeeded} <==> RegisteredBy(events, a, n, call, req))
    decreases n
  {
    if n == a + 1 {
      phase := start;
    } else {
      var m := n - 1;
      var before := PhasesAlong(in_, events, a, m, call, req, start);
      phase := Next(before, events[m], call, req);
      OneMoreRegisters(events, a, m, call, req);
      assert in_(m + 1, phase);
      StaysTurned(before, events[m], call, req);
    }
  }

  lemma StaysTurned(phase: Phase, e: Event, call: nat, req: Request)
    requires Registers(e, call, req) ==> phase == Waiting
    ensures Next(phase, e, call, req) in {Applying, Succeeded} <==> phase in {Applying, Succeeded} || Registers(e, call, req)
    ensures phase == Turned ==> Next(phase, e, call, req) == Turned
  {}

  ghost predicate InPhaseAt(events: seq<Event>, md5: string -> string, n: nat, call: nat, req: Request, from: nat, phase: Phase) {
    n <= |events| && Run(events[..n], md5).Some? && InPhase(Run(events[..n], md5).value, call, req, from, phase)
  }

  lemma PhaseNext(events: seq<Event>, md5: string -> string, n: nat, call: nat, req: Request, from: nat, phase: Phase)
    requires n < |events| && !(events[n].Begin? && events[n].call == call)
    ensures Run(events, md5).Some? && InPhaseAt(events, md5, n, call, req, from, phase) ==>
      InPhaseAt(events, md5, n + 1, call, req, from, Next(phase, events[n], call, req)) && (Registers(events[n], call, req) ==> phase == Waiting)
  {
    if Run(events, md5).Some? && InPhaseAt(events, md5, n, call, req, from, phase) {
      RunPrefix(events, md5, n + 1);
      RunNext(events, md5, n);
      StepPhase(Run(events[..n], md5).value, events[n], md5, call, req, from, phase);
    }
  }

  ghost function PhaseIs(events: seq<Event>, md5: string -> string, call: nat, req: Request, from: nat): (nat, Phase) -> bool {
    (n: nat, p: Phase) => InPhaseAt(events, md5, n, call, req, from, p)
  }

  lemma AllPhasesNext(events: seq<Event>, md5: string -> string, a: nat, call: nat, req: Request, from: nat)
    requires Run(events, md5).Some? && forall k :: a < k < |events| ==> !(events[k].Begin? && events[k].call == call)
    ensures PhasesMove(PhaseIs(events, md5, call, req, from), events, a, |events|, call, req)
  {
    var in_ := PhaseIs(events, md5, call, req, from);
    forall m: nat, p: Phase | a < m < |events| && in_(m, p)
      ensures in_(m + 1, Next(p, events[m], call, req)) && (Registers(events[m], call, req) ==> p == Waiting)
    {
      PhaseNext(events, md5, m, call, req, from, p);
    }
  }

  /** A call that authentication let in or turned away is followed to the end of the run. */
  lemma Track(events: seq<Event>, md5: string -> string, a: nat, call: nat, req: Request, from: nat, start: Phase) returns (phase: Phase)
    requires a < |events| && Run(events, md5).Some? && start in {Waiting, Turned}
    requires forall k :: a < k < |events| ==> !(events[k].Begin? && events[k].call == call)
    requires PhaseIs(events, md5, call, req, from)(a + 1, start)
    ensures PhaseIs(events, md5, call, req, from)(|events|, phase)
    ensures phase in {Applying, Succeeded} <==> start == Waiting && RegisteredBy(events, a, |events|, call, req)
  {
    AllPhasesNext(events, md5, a, call, req, from);
    phase := PhasesAlong(PhaseIs(events, md5, call, req, from), events, a, |events|, call, req, start);
  }

  lemma OneMoreRegisters(events: seq<Event>, a: nat, m: nat, call: nat, req: Request)
    requires a < m < |events|
    ensures RegisteredBy(events, a, m + 1, call, req) <==> RegisteredBy(events, a, m, call, req) || Registers(events[m], call, req)
  {
    if p :| a < p < m && p < |events| && Registers(events[p], call, req) { assert a < p < m + 1; }
    if Registers(events[m], call, req) { assert a < m < m + 1; }
  }

  /** Main result. In every interleaving, a call that answers its challenge rightly and has
      come to its end was answered 200 if and only if, when it asked for the nonce, that had
      not expired and was not handed out, pruned or evicted since it was issued; it was still
      not expired when the answer was checked; the lifetime is allowed; and the device store
      took the registration. */
  lemma RightAnswerEndsIn200Iff(events: seq<Event>, md5: string -> string, a: nat, i: nat)
    requires Run(events, md5).Some? && a < |events| && events[a].Authenticate? && events[a].now != 0
    requires forall k :: a < k < |events| ==> !(events[k].Begin? && events[k].call == events[a].call)
    requires events[a].call !in Run(events, md5).value.calls
    requires var s := Run(events[..a], md5);
      && s.Some? && events[a].call in s.value.calls && i < |s.value.log| && s.value.log[i].Issued?
      && RightlyAnswers(s.value.calls[events[a].call].req, events[a].device, s.value.log[i].nonce, s.value.log[i].record, md5)
    ensures var s := Run(events[..a], md5).value; var call := events[a].call; var req := s.calls[call].req;
      Replied200(Run(events, md5).value, call, |s.replies|) <==>
      && OpenAt(s.log, i, events[a].now) && events[a].later < s.log[i].record.expires
      && Lifetime(req.expires) && RegisteredBy(events, a, |events|, call, req)
  {
    var s := Run(events[..a], md5).value;
    var call, req := events[a].call, s.calls[events[a].call].req;
    var start := Authenticates(events, md5, a, i);
    var phase := Track(events, md5, a, call, req, |s.replies|, start);
    AtTheEnd(events, md5, call, req, |s.replies|, phase);
  }

  lemma AtTheEnd(events: seq<Event>, md5: string -> string, call: nat, req: Request, from: nat, phase: Phase)
    ensures PhaseIs(events, md5, call, req, from)(|events|, phase) && Run(events, md5).Some? && call !in Run(events, md5).value.calls ==>
      phase in {Succeeded, Turned} && (phase == Succeeded <==> Replied200(Run(events, md5).value, call, from))
  {
    assert events[..|events|] == events;
  }

  lemma Authenticates(events: seq<Event>, md5: string -> string, a: nat, i: nat) returns (start: Phase)
    requires Run(events, md5).Some? && a < |events| && events[a].Authenticate? && events[a].now != 0
    requires var s := Run(events[..a], md5);
      && s.Some? && events[a].call in s.value.calls && i < |s.value.log| && s.value.log[i].Issued?
      && RightlyAnswers(s.value.calls[events[a].call].req, events[a].device, s.value.log[i].nonce, s.value.log[i].record, md5)
    ensures var s := Run(events[..a], md5).value; var call := events[a].call; var req := s.calls[call].req;
      && start in {Waiting, Turned} && InPhaseAt(events, md5, a + 1, call, req, |s.replies|, start)
      && (start == Waiting <==> OpenAt(s.log, i, events[a].now) && events[a].later < s.log[i].record.expires && Lifetime(req.expires))
  {
    var s := Run(events[..a], md5).value;
    RunPrefix(events, md5, a + 1);
    RunNext(events, md5, a);
    Register.RunKeeps(events[..a], md5);
    AcceptedIff(s, events[a].call, events[a].device, events[a].now, events[a].later, md5, i);
    start := if IsAccepted(Run(events[..a + 1], md5).value, events[a].call) then Waiting else Turned;
    StartPhase(s, Run(events[..a + 1], md5).value, events[a].call, s.calls[events[a].call].req, start);
  }

  lemma StartPhase(s: System, t: System, call: nat, req: Request, start: Phase)
    requires start == if IsAccepted(t, call) then Waiting else Turned
    requires IsAccepted(t, call) ==> t.calls[call].req == req && t.replies == s.replies
    requires !IsAccepted(t, call) ==> call !in t.calls && |t.replies| == |s.replies| + 1 && t.replies[|s.replies|].Refused?
    ensures InPhase(t, call, req, |s.replies|, start)
  {}

  // ----- one guess

  lemma BurntByAsking(s: System, call: nat, device: Lookup, now: int, later: int, md5: string -> string)
    requires call in s.calls && Precheck(s.calls[call].req, device).None? && now != 0 && N.Apart(N.Run(s.log))
    ensures var nonce := s.calls[call].req.authorization.value.nonce;
      && StepAuthenticate(s, call, device, now, later, md5).log == s.log + [N.Consumed(nonce, now)]
      && (nonce != "" ==> nonce !in N.Run(s.log + [N.Consumed(nonce, now)]).entries)
  {
    var req := s.calls[call].req;
    var nonce := req.authorization.value.nonce;
    Asked(s, call, req, N.Consumed(nonce, now), Postcheck(req, device, N.AfterConsume(N.Run(s.log), nonce, now).1, later, md5));
    AskingCloses(s.log, nonce, now);
  }

  lemma AskingCloses(log: seq<N.Event>, nonce: string, now: int)
    ensures now != 0 && nonce != "" && N.Apart(N.Run(log)) ==> nonce !in N.Run(log + [N.Consumed(nonce, now)]).entries
  {
    assert (log + [N.Consumed(nonce, now)])[..|log|] == log;
  }

  lemma Asked(s: System, call: nat, req: Request, e: N.Event, error: Option<Error>)
    ensures Authenticated(s, call, req, e, error).log == s.log + [e]
  {}

  lemma LogStep(s: System, e: Event, md5: string -> string)
    ensures Enabled(s, e) ==> s.log <= Step(s, e, md5).log
  {}

  lemma {:induction false} GrowsAlong(log: nat -> seq<N.Event>, m: nat, n: nat)
    requires m <= n && forall k: nat :: k < n ==> log(k) <= log(k + 1)
    ensures log(m) <= log(n)
  {
    if m < n {
      GrowsAlong(log, m, n - 1);
      assert log(n - 1) <= log(n - 1 + 1);
    }
  }

  ghost function LogAt(events: seq<Event>, md5: string -> string, n: nat): seq<N.Event> {
    if n <= |events| && Run(events[..n], md5).Some? then Run(events[..n], md5).value.log else []
  }

  lemma LogNext(events: seq<Event>, md5: string -> string, n: nat)
    requires n < |events|
    ensures Run(events, md5).Some? ==> LogAt(events, md5, n) <= LogAt(events, md5, n + 1)
  {
    if Run(events, md5).Some? {
      RunPrefix(events, md5, n + 1);
      RunNext(events, md5, n);
      LogStep(Run(events[..n], md5).value, events[n], md5);
    }
  }

  lemma LogAlong(events: seq<Event>, md5: string -> string, m: nat, n: nat)
    requires m <= n <= |events|
    ensures Run(events, md5).Some? ==> LogAt(events, md5, m) <= LogAt(events, md5, n)
  {
    if Run(events, md5).Some? {
      forall k: nat | k < n ensures LogAt(events, md5, k) <= LogAt(events, md5, k + 1) { LogNext(events, md5, k); }
      GrowsAlong((k: nat) => LogAt(events, md5, k), m, n);
    }
  }

  /** The call presents this nonce, and gets as far as asking for it. */
  predicate Asks(s: System, e: Event, nonce: string) {
    && e.Authenticate? && e.now != 0 && e.call in s.calls && s.calls[e.call].Looking?
    && Precheck(s.calls[e.call].req, e.device).None? && s.calls[e.call].req.authorization.value.nonce == nonce
  }

  ghost predicate AsksFor(events: seq<Event>, md5: string -> string, a: nat, nonce: string) {
    a < |events| && Run(events[..a], md5).Some? && Asks(Run(events[..a], md5).value, events[a], nonce)
  }

  /** A nonce that has left the store does not let anybody in. */
  lemma ClosedRefuses(s: System, e: Event, nonce: string, md5: string -> string)
    requires Asks(s, e, nonce) && nonce !in N.Run(s.log).entries
    ensures Enabled(s, e) && !IsAccepted(Step(s, e, md5), e.call)
  {}

  /** Main result. An issued nonce is worth one guess: once a call has asked for it, right or
      wrong, no later call in any interleaving is let in with it. */
  lemma OneGuessPerNonce(events: seq<Event>, md5: string -> string, a: nat, b: nat, nonce: string)
    requires Run(events, md5).Some? && a < b && AsksFor(events, md5, a, nonce) && AsksFor(events, md5, b, nonce)
    requires nonce != "" && nonce in N.Ledger(Run(events[..a], md5).value.log)
    ensures var s := Run(events[..b], md5).value; Enabled(s, events[b]) && !IsAccepted(Step(s, events[b], md5), events[b].call)
  {
    ClosedBefore(events, md5, a, b, nonce);
    ClosedRefuses(Run(events[..b], md5).value, events[b], nonce, md5);
  }

  lemma ClosedBefore(events: seq<Event>, md5: string -> string, a: nat, b: nat, nonce: string)
    requires a < b < |events| && nonce != ""
    ensures Run(events, md5).Some? && AsksFor(events, md5, a, nonce) && nonce in N.Ledger(LogAt(events, md5, a)) ==>
      nonce !in N.Run(LogAt(events, md5, b)).entries
  {
    if Run(events, md5).Some? && AsksFor(events, md5, a, nonce) && nonce in N.Ledger(LogAt(events, md5, a)) {
      RunPrefix(events, md5, b);
      RunPrefix(events, md5, a + 1);
      RunNext(events, md5, a);
      Register.RunKeeps(events[..a], md5);
      Register.RunKeeps(events[..b], md5);
      StepBurns(Run(events[..a], md5).value, events[a], nonce, md5);
      LogAlong(events, md5, a + 1, b);
      ClosedInLonger(LogAt(events, md5, a + 1), LogAt(events, md5, b), nonce);
    }
  }

  lemma ClosedInLonger(log: seq<N.Event>, longer: seq<N.Event>, nonce: string)
    requires N.Allowed(longer) && log <= longer && nonce in N.Ledger(log) && nonce !in N.Run(log).entries
    ensures nonce !in N.Run(longer).entries
  {
    assert log == longer[..|log|] && longer[..|longer|] == longer;
    N.GoneForGood(longer, |log|, nonce, |longer|);
  }

  lemma StepBurns(s: System, e: Event, nonce: string, md5: string -> string)
    requires Inv(s) && Asks(s, e, nonce) && nonce != "" && nonce in N.Ledger(s.log)
    ensures Enabled(s, e)
    ensures var log := Step(s, e, md5).log; nonce in N.Ledger(log) && nonce !in N.Run(log).entries
  {
    N.StoreStaysBounded(s.log);
    BurntByAsking(s, e.call, e.device, e.now, e.later, md5);
    LedgerKeeps(s.log, N.Consumed(nonce, e.now), nonce);
  }

  lemma LedgerKeeps(log: seq<N.Event>, e: N.Event, nonce: string)
    ensures nonce in N.Ledger(log) ==> nonce in N.Ledger(log + [e])
  {
    assert (log + [e])[..|log|] == log;
  }
}
