/** The registration service as an object, and what one call does when it runs alone. */
module RegisterService {
  import opened Prelude
  import opened Register
  import N = NonceStore

  /** What the clock and the device store answer during one call, in order. */
  datatype World = World(looked: int, device: Lookup, consumed: int, checked: int,
                         peer: PeerLookup, applied: bool, registered: int, remembered: int)

  datatype State = State(transactions: map<string, Cached>, nonces: N.Store)

  /** From authentication to the reply. */
  function Concluded(s: State, req: Request, w: World, victim: string): (State, Response) {
    var result := Registered(req, w.registered);
    if !Applies(req, w.peer, w.applied) then (s, Failed(RegistrationConflict))
    else (s.(transactions := Remembered(s.transactions, req, result, w.remembered, victim)), Done(result))
  }

  /** From the look-up in the cache to the reply. */
  function Checked(s: State, req: Request, w: World, victim: string, md5: string -> string): (State, Response) {
    if Precheck(req, w.device).Some? then (s, Failed(Precheck(req, w.device).value))
    else
      var (nonces, answer) := N.AfterConsume(s.nonces, req.authorization.value.nonce, w.consumed);
      var error := Postcheck(req, w.device, answer, w.checked, md5);
      if error.Some? then (s.(nonces := nonces), Failed(error.value))
      else Concluded(s.(nonces := nonces), req, w, victim)
  }

  /** One call of HandleRegister from start to end. */
  function Handled(s: State, req: Request, w: World, victim: string, md5: string -> string): (State, Response) {
    var looked := State(AfterLookUp(s.transactions, req, w.looked), s.nonces);
    var hit := LookUp(s.transactions, req, w.looked);
    if hit.Some? then (looked, hit.value) else Checked(looked, req, w, victim, md5)
  }

  /** The client's answer to a challenge is right: an open nonce of its own, not expired, and the
      digest made with the device's password. */
  predicate RightAnswer(s: State, req: Request, w: World, md5: string -> string) {
    && w.device.Found? && w.device.device == req.device && w.device.realm == req.realm && w.device.allows && req.authorization.Some?
    && var a := req.authorization.value;
       && a.username == req.username && a.realm == req.realm && a.uri == req.uri
       && a.nonce != "" && w.consumed != 0 && a.nonce in s.nonces.entries
       && var record := s.nonces.entries[a.nonce];
          && w.consumed < record.expires && w.checked < record.expires
          && record.device == req.device && record.realm == req.realm && record.peer == req.source && record.uri == req.uri
          && Digest(a, req.verb, w.device.password, md5) == Some(Lower(a.response))
  }

  /** The device store takes the registration. */
  predicate Taken(req: Request, w: World) {
    w.applied && (w.peer.NoPeer? || (w.peer.PeerOf? && (w.peer.device == "" || w.peer.device == req.device)))
  }

  /** One call in one state ends with 200 if and only if the request is valid and either the
      cache has its transaction, or the answer to the challenge is right, the lifetime is
      allowed, and the device store takes the registration. */
  lemma RegisteredIff(s: State, req: Request, w: World, victim: string, md5: string -> string)
    requires forall n :: n in s.nonces.entries ==> n !in s.nonces.used
    ensures Handled(s, req, w, victim, md5).1.Done? <==>
      ValidRequest(req) && (LookUp(s.transactions, req, w.looked).Some?
        || (RightAnswer(s, req, w, md5) && (req.expires == 0 || 60 <= req.expires <= 3600) && Taken(req, w)))
  {
    if LookUp(s.transactions, req, w.looked).None? {
      CheckedIff(State(AfterLookUp(s.transactions, req, w.looked), s.nonces), req, w, victim, md5);
    }
  }

  lemma CheckedIff(s: State, req: Request, w: World, victim: string, md5: string -> string)
    requires forall n :: n in s.nonces.entries ==> n !in s.nonces.used
    ensures Checked(s, req, w, victim, md5).1.Done? <==>
      RightAnswer(s, req, w, md5) && (req.expires == 0 || 60 <= req.expires <= 3600) && Taken(req, w)
  {}

  /** Why a valid request that the cache does not know is refused: the first reason that applies. */
  lemma RefusedBecause(s: State, req: Request, w: World, victim: string, md5: string -> string)
    requires ValidRequest(req) && LookUp(s.transactions, req, w.looked).None?
    requires forall n :: n in s.nonces.entries ==> n !in s.nonces.used
    ensures var r := Handled(s, req, w, victim, md5).1;
      var known := w.device.Found? && w.device.device == req.device && w.device.realm == req.realm && w.device.allows;
      var presented := known && req.authorization.Some? && req.authorization.value.username == req.username
        && req.authorization.value.realm == req.realm && req.authorization.value.uri == req.uri;
      && (r == Failed(UnknownDevice) <==> w.device.Unknown?)
      && (r == Failed(PeerNotAllowed) <==> w.device.Found? && !known)
      && (r == Failed(DigestRequired) <==> known && req.authorization.None?)
      && (r == Failed(NonceReplay) <==> presented && UsedUp(s.nonces, req.authorization.value.nonce, w.consumed))
      && (r == Failed(InvalidRequest) <==> RightAnswer(s, req, w, md5) && !(req.expires == 0 || 60 <= req.expires <= 3600))
      && (r == Failed(RegistrationConflict) <==> RightAnswer(s, req, w, md5) && (req.expires == 0 || 60 <= req.expires <= 3600) && !Taken(req, w))
      && (r == Failed(NonceInvalid) ==> presented && !RightAnswer(s, req, w, md5))
      && (r == Failed(DigestInvalid) ==> known && req.authorization.Some? && !RightAnswer(s, req, w, md5))
      && (known && req.authorization.Some? && !presented ==> r == Failed(DigestInvalid))
  {}

  /** The nonce was handed out before and has not expired since. */
  predicate UsedUp(s: N.Store, nonce: string, now: int) { nonce != "" && now != 0 && nonce in s.used && now < s.used[nonce] }

  // ----- the interleaved sections, run without interleaving

  function AloneConcludes(s: System, call: nat, w: World, victim: string): System
    requires call in s.calls && s.calls[call].Accepted?
  {
    var applied := StepApply(s, call, w.peer, w.applied, w.registered);
    if call in applied.calls && applied.calls[call].Applied? then StepRemember(applied, call, w.remembered, victim) else applied
  }

  function AloneChecks(s: System, call: nat, w: World, victim: string, md5: string -> string): System
    requires call in s.calls && s.calls[call].Looking?
  {
    var authenticated := StepAuthenticate(s, call, w.device, w.consumed, w.checked, md5);
    if call in authenticated.calls && authenticated.calls[call].Accepted? then AloneConcludes(authenticated, call, w, victim)
    else authenticated
  }

  function Alone(s: System, call: nat, req: Request, w: World, victim: string, md5: string -> string): System
    requires call !in s.calls
  {
    var begun := StepBegin(s, call, req, w.looked);
    if call in begun.calls then AloneChecks(begun, call, w, victim, md5) else begun
  }

  /** `t` is what a call leaves that has turned `s` into `after` and replied `r`. */
  ghost predicate Left(t: System, s: System, call: nat, req: Request, after: State, r: Response) {
    && t.cache == after.transactions && N.Run(t.log) == after.nonces && t.calls == s.calls - {call}
    && |t.replies| == |s.replies| + 1 && t.replies[..|s.replies|] == s.replies
    && var reply := t.replies[|s.replies|];
       && reply.req == req && reply.call == call
       && (r.Done? ==> !reply.Refused? && reply.result == r.registration)
       && (r.Failed? ==> reply.Refused? && reply.error == r.error)
  }

  lemma AloneConcluded(s: System, call: nat, w: World, victim: string)
    requires call in s.calls && s.calls[call].Accepted?
    ensures var req := s.calls[call].req; var (after, r) := Concluded(State(s.cache, N.Run(s.log)), req, w, victim);
      Left(AloneConcludes(s, call, w, victim), s, call, req, after, r)
  {
    var req := s.calls[call].req;
    var stage := Applied(req, s.calls[call].at, Registered(req, w.registered));
    assert s.calls[call := stage] - {call} == s.calls - {call};
  }

  lemma AloneRejected(s: System, call: nat, req: Request, e: N.Event, error: Error)
    requires call in s.calls
    ensures Left(Authenticated(s, call, req, e, Some(error)), s, call, req, State(s.cache, N.Run(s.log + [e])), Failed(error))
  {}

  lemma LeftFrom(t: System, begun: System, s: System, call: nat, req: Request, after: State, r: Response)
    requires Left(t, begun, call, req, after, r) && begun.calls - {call} == s.calls - {call} && begun.replies == s.replies
    ensures Left(t, s, call, req, after, r)
  {}

  lemma AloneAccepted(s: System, call: nat, req: Request, e: N.Event, w: World, victim: string)
    requires call in s.calls
    ensures var (after, r) := Concluded(State(s.cache, N.Run(s.log + [e])), req, w, victim);
      Left(AloneConcludes(Authenticated(s, call, req, e, None), call, w, victim), s, call, req, after, r)
  {
    var t := Authenticated(s, call, req, e, None);
    assert t.calls - {call} == s.calls - {call};
    AloneConcluded(t, call, w, victim);
    var (after, r) := Concluded(State(s.cache, N.Run(s.log + [e])), req, w, victim);
    LeftFrom(AloneConcludes(t, call, w, victim), t, s, call, req, after, r);
  }

  lemma AloneStopped(s: System, call: nat, w: World, victim: string, md5: string -> string)
    requires call in s.calls && s.calls[call].Looking? && Precheck(s.calls[call].req, w.device).Some?
    ensures var req := s.calls[call].req; var (after, r) := Checked(State(s.cache, N.Run(s.log)), req, w, victim, md5);
      Left(AloneChecks(s, call, w, victim, md5), s, call, req, after, r)
  {}

  /** The error of the checks around the nonce, and what they leave in the log. */
  function Outcome(s: System, req: Request, w: World, md5: string -> string): (N.Event, Option<Error>)
    requires Precheck(req, w.device).None?
  {
    var nonce := req.authorization.value.nonce;
    (N.Consumed(nonce, w.consumed), Postcheck(req, w.device, N.AfterConsume(N.Run(s.log), nonce, w.consumed).1, w.checked, md5))
  }

  lemma AloneChecksAre(s: System, call: nat, w: World, victim: string, md5: string -> string)
    requires call in s.calls && s.calls[call].Looking? && Precheck(s.calls[call].req, w.device).None?
    ensures var req := s.calls[call].req; var (e, error) := Outcome(s, req, w, md5); var t := Authenticated(s, call, req, e, error);
      AloneChecks(s, call, w, victim, md5) == if error.None? then AloneConcludes(t, call, w, victim) else t
  {}

  lemma CheckedIs(s: System, req: Request, w: World, victim: string, md5: string -> string)
    requires Precheck(req, w.device).None?
    ensures var (e, error) := Outcome(s, req, w, md5); var after := State(s.cache, N.Run(s.log + [e]));
      Checked(State(s.cache, N.Run(s.log)), req, w, victim, md5) ==
      if error.None? then Concluded(after, req, w, victim) else (after, Failed(error.value))
  {
    var e := Outcome(s, req, w, md5).0;
    assert (s.log + [e])[..|s.log|] == s.log;
  }

  lemma AloneChecked(s: System, call: nat, w: World, victim: string, md5: string -> string)
    requires call in s.calls && s.calls[call].Looking?
    ensures var req := s.calls[call].req; var (after, r) := Checked(State(s.cache, N.Run(s.log)), req, w, victim, md5);
      Left(AloneChecks(s, call, w, victim, md5), s, call, req, after, r)
  {
    var req := s.calls[call].req;
    if Precheck(req, w.device).Some? {
      AloneStopped(s, call, w, victim, md5);
    } else {
      var (e, error) := Outcome(s, req, w, md5);
      AloneChecksAre(s, call, w, victim, md5);
      CheckedIs(s, req, w, victim, md5);
      if error.None? { AloneAccepted(s, call, req, e, w, victim); } else { AloneRejected(s, call, req, e, error.value); }
    }
  }

  /** The sections of a call, run one after another with no other call between them, do
      to the cache and the nonces what the whole call does, and reply the same. */
  lemma AloneIsHandled(s: System, call: nat, req: Request, w: World, victim: string, md5: string -> string)
    requires call !in s.calls
    ensures var (after, r) := Handled(State(s.cache, N.Run(s.log)), req, w, victim, md5);
      Left(Alone(s, call, req, w, victim, md5), s, call, req, after, r)
  {
    if LookUp(s.cache, req, w.looked).None? {
      var begun := StepBegin(s, call, req, w.looked);
      AloneChecked(begun, call, w, victim, md5);
      assert begun.calls - {call} == s.calls - {call};
    }
  }

  /** Who is given a nonce. */
  predicate Challengeable(req: Request, device: Lookup) {
    && ValidDevice(req.device) && req.username == req.device && req.verb == "REGISTER" && req.sourceValid && ValidText(req.uri, 2048)
    && device.Found? && device.device == req.device && device.realm == req.realm && device.allows && ValidText(device.realm, 128)
  }

  class Service {
    var transactions: map<string, Cached>
    const nonces: N.MemoryNonceStore

    ghost function View(): State
      reads this, nonces
    {
      State(transactions, nonces.View())
    }

    constructor ()
      ensures View() == State(map[], N.Run([])) && fresh(nonces)
    {
      transactions := map[];
      nonces := new N.MemoryNonceStore();
    }

    /** Challenge; `nonce` is what the random source yields, None if it fails. */
    method Challenge(req: Request, device: Lookup, now: int, nonce: Option<string>) returns (issued: bool, ghost victim: string)
      requires N.Bounded(nonces.View()) && (nonce.Some? ==> nonce.value !in N.Keys(nonces.View()) && ValidText(nonce.value, 256))
      modifies nonces
      ensures transactions == old(transactions) && N.Bounded(nonces.View())
      ensures issued <==> Challengeable(req, device) && now + 60 * SECOND != 0 && nonce.Some?
      ensures !issued ==> nonces.View() == old(nonces.View())
      ensures issued ==> nonces.View() == N.AfterIssue(old(nonces.View()), nonce.value, N.Record(req.device, req.realm, req.source, req.uri, now + 60 * SECOND), victim)
      ensures issued && N.Size(old(nonces.View())) >= N.MAX_NONCES ==> N.Least(old(nonces.View()), victim)
    {
      issued, victim := false, "";
      if !ValidDevice(req.device) || req.username != req.device || !ValidText(req.verb, 32) || req.verb != "REGISTER" || !req.sourceValid { return; }
      if device.Unknown? { return; }
      if device.device != req.device || req.realm != device.realm || !device.allows { return; }
      if !ValidText(device.realm, 128) || !ValidText(req.uri, 2048) { return; }
      var expires := now + 60 * SECOND;
      issued, victim := nonces.Issue(N.Record(req.device, device.realm, req.source, req.uri, expires), req.sourceValid, nonce);
    }

    method Transaction(req: Request, now: int) returns (result: Option<Registration>)
      requires ValidRequest(req) && req.transaction != ""
      modifies this`transactions
      ensures transactions == AfterLookUp(old(transactions), req, now)
      ensures result == if KeyOf(req) in transactions then Some(transactions[KeyOf(req)].result) else None
    {
      var key := req.transaction + "|" + req.source.address + "|" + TransportText(req.source.transport) + "|" + req.device;
      var todo := transactions.Keys;
      while todo != {}
        invariant todo <= old(transactions).Keys
        invariant transactions == map k | k in old(transactions) && (k in todo || now < old(transactions)[k].expires) :: old(transactions)[k]
        decreases todo
      {
        var k :| k in todo;
        if transactions[k].expires <= now { transactions := transactions - {k}; }
        todo := todo - {k};
      }
      if key in transactions && now < transactions[key].expires { return Some(transactions[key].result); }
      result := None;
    }

    method RememberTransaction(req: Request, result: Registration, now: int) returns (ghost victim: string)
      modifies this`transactions
      ensures transactions == Remembered(old(transactions), req, result, now, victim)
      ensures req.transaction != "" && |old(transactions)| >= MAX_TRANSACTIONS ==> victim in old(transactions)
    {
      victim := "";
      if req.transaction == "" { return; }
      if |transactions| >= MAX_TRANSACTIONS {
        var k :| k in transactions;
        victim := k;
        transactions := transactions - {k};
      }
      transactions := transactions[KeyOf(req) := Cached(result, now + 60 * SECOND)];
    }

    method HandleRegister(req: Request, w: World, md5: string -> string) returns (r: Response, ghost victim: string)
      modifies this`transactions, nonces
      ensures (View(), r) == Handled(old(View()), req, w, victim, md5)
    {
      victim := "";
      if !ValidRequest(req) { return Failed(InvalidRequest), victim; }
      if req.transaction != "" {
        var result := Transaction(req, w.looked);
        if result.Some? { return Done(result.value), victim; }
      }
      var refused := Precheck(req, w.device);
      if refused.Some? { return Failed(refused.value), victim; }
      var answer := nonces.Consume(req.authorization.value.nonce, w.consumed);
      var error := Postcheck(req, w.device, answer, w.checked, md5);
      if error.Some? { return Failed(error.value), victim; }
      var registration := Registered(req, w.registered);
      if !Applies(req, w.peer, w.applied) { return Failed(RegistrationConflict), victim; }
      victim := RememberTransaction(req, registration, w.remembered);
      r := Done(registration);
    }
  }
}
