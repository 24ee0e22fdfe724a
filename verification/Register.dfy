/** REGISTER with digest authentication: the sections of HandleRegister, each atomic
    under its own lock, and the cache of recent transactions. Times are nanoseconds, and
    what the device store and the clock answer is an input of each section. */
module Register {
  import opened Prelude
  import N = NonceStore

  datatype Authorization = Authorization(username: string, realm: string, nonce: string, uri: string,
                                         response: string, algorithm: string, qop: string, cnonce: string, nc: string)
  datatype Request = Request(device: string, username: string, realm: string, verb: string, uri: string, source: N.Peer,
                             sourceValid: bool, expires: int, authorization: Option<Authorization>, transaction: string)
  datatype Registration = Registration(device: string, peer: N.Peer, at: int, expires: int, online: bool)
  datatype Error = InvalidRequest | UnknownDevice | PeerNotAllowed | DigestRequired | DigestInvalid
                 | NonceInvalid | NonceReplay | RegistrationConflict
  datatype Response = Done(registration: Registration) | Failed(error: Error)

  /** LookupDevice, with whether the device allows the peer. */
  datatype Lookup = Unknown | Found(device: string, realm: string, password: string, allows: bool)
  /** LookupPeer. */
  datatype PeerLookup = NoPeer | PeerOf(device: string) | LookupFailed

  const SECOND := 1_000_000_000
  const MAX_TRANSACTIONS := 1024

  predicate ValidText(s: string, max: nat) {
    s != "" && |s| <= max && forall c :: c in s ==> c as int >= 0x20 && c as int != 0x7f
  }

  predicate ValidDevice(id: string) {
    |id| == 20 && forall i :: 0 <= i < |id| ==> '0' <= id[i] <= '9'
  }

  predicate ValidRequest(req: Request) {
    && ValidDevice(req.device) && req.username == req.device && req.verb == "REGISTER" && req.sourceValid
    && ValidText(req.uri, 2048) && (req.transaction != "" ==> ValidText(req.transaction, 128))
  }

  // ----- the digest

  function Lower(s: string): string {
    seq(|s|, i requires 0 <= i < |s| => if 'A' <= s[i] <= 'Z' then (s[i] as int + 32) as char else s[i])
  }

  predicate HexDigit(c: char) { '0' <= c <= '9' || 'a' <= c <= 'f' || 'A' <= c <= 'F' }

  /** digestResponse; MD5 is the parameter `md5`. */
  function Digest(a: Authorization, verb: string, password: string, md5: string -> string): Option<string> {
    var ha1 := md5(a.username + ":" + a.realm + ":" + password);
    var ha2 := md5(verb + ":" + a.uri);
    if a.algorithm != "" && Lower(a.algorithm) != "md5" then None
    else if !ValidText(a.username, 128) || !ValidText(a.realm, 128) || !ValidText(a.nonce, 256) || !ValidText(a.uri, 2048)
         || !ValidText(verb, 32) || |password| > 128 || a.response == "" then None
    else if a.qop == "" then Some(md5(ha1 + ":" + a.nonce + ":" + ha2))
    else if Lower(a.qop) != "auth" || !ValidText(a.cnonce, 128) || |a.nc| != 8 || exists c :: c in a.nc && !HexDigit(c) then None
    else Some(md5(ha1 + ":" + a.nonce + ":" + a.nc + ":" + a.cnonce + ":auth:" + ha2))
  }

  /** KD of section 3.2.2 of RFC 2617, without the outer hash. */
  function Keyed(secret: string, data: string): string { secret + ":" + data }

  /** What section 3.2.2.1 of RFC 2617 hashes for the request-digest, with the qop value as it was sent. */
  function StandardText(a: Authorization, verb: string, password: string, md5: string -> string): string {
    var a1, a2 := a.username + ":" + a.realm + ":" + password, verb + ":" + a.uri;
    if a.qop == "" then Keyed(md5(a1), a.nonce + ":" + md5(a2))
    else Keyed(md5(a1), a.nonce + ":" + a.nc + ":" + a.cnonce + ":" + a.qop + ":" + md5(a2))
  }

  lemma HashedText(a: Authorization, verb: string, password: string, md5: string -> string)
    requires Digest(a, verb, password, md5).Some?
    ensures Digest(a, verb, password, md5).value == md5(StandardText(if a.qop == "" then a else a.(qop := "auth"), verb, password, md5))
  {
    var ha1, ha2 := md5(a.username + ":" + a.realm + ":" + password), md5(verb + ":" + a.uri);
    assert ha1 + ":" + a.nonce + ":" + ha2 == ha1 + ":" + (a.nonce + ":" + ha2);
    assert ha1 + ":" + a.nonce + ":" + a.nc + ":" + a.cnonce + ":auth:" + ha2
        == ha1 + ":" + (a.nonce + ":" + a.nc + ":" + a.cnonce + ":" + "auth" + ":" + ha2);
  }

  /** A digest is made exactly of an authorization whose algorithm is MD5 or left out, whose texts
      fit, that carries a response, and whose qop is left out or is auth with a client nonce
      and eight hexadecimal digits; letter case does not matter. */
  lemma DigestMadeIff(a: Authorization, verb: string, password: string, md5: string -> string)
    ensures Digest(a, verb, password, md5).Some? <==>
      && (a.algorithm == "" || Lower(a.algorithm) == "md5") && a.response != "" && |password| <= 128
      && Fits(a.username, 128) && Fits(a.realm, 128) && Fits(a.nonce, 256) && Fits(a.uri, 2048) && Fits(verb, 32)
      && (a.qop == "" || (Lower(a.qop) == "auth" && Fits(a.cnonce, 128) && |a.nc| == 8 && forall i :: 0 <= i < 8 ==> HexDigit(a.nc[i])))
  {
    FitsIff(a.username, 128);
    FitsIff(a.realm, 128);
    FitsIff(a.nonce, 256);
    FitsIff(a.uri, 2048);
    FitsIff(a.cnonce, 128);
    FitsIff(verb, 32);
  }

  /** Between one and `max` bytes, none of them a control character. */
  predicate Fits(s: string, max: nat) {
    1 <= |s| <= max && forall i :: 0 <= i < |s| ==> ' ' <= s[i] && s[i] != 127 as char
  }

  lemma FitsIff(s: string, max: nat)
    ensures Fits(s, max) <==> ValidText(s, max)
  {
    if Fits(s, max) {
      forall c | c in s ensures c as int >= 0x20 && c as int != 0x7f {}
    } else if ValidText(s, max) {
      forall i | 0 <= i < |s| ensures ' ' <= s[i] && s[i] != 127 as char { assert s[i] in s; }
    }
  }

  /** Whatever the spelling of qop that is accepted, the digest hashes the text of the standard
      if and only if qop is left out or sent in lower case. */
  lemma DigestIsTheStandardOneIff(a: Authorization, verb: string, password: string, md5: string -> string)
    requires Digest(a, verb, password, md5).Some?
    ensures var hashed := StandardText(if a.qop == "" then a else a.(qop := "auth"), verb, password, md5);
      && Digest(a, verb, password, md5).value == md5(hashed)
      && (hashed == StandardText(a, verb, password, md5) <==> a.qop in {"", "auth"})
  {
    HashedText(a, verb, password, md5);
    if a.qop != "" && StandardText(a.(qop := "auth"), verb, password, md5) == StandardText(a, verb, password, md5) {
      var ha1, ha2 := md5(a.username + ":" + a.realm + ":" + password), md5(verb + ":" + a.uri);
      TextWith(a, "auth", verb, password, md5);
      TextWith(a, a.qop, verb, password, md5);
      SameMiddle(ha1 + ":" + (a.nonce + ":" + a.nc + ":" + a.cnonce + ":"), "auth", a.qop, ":" + ha2);
    }
  }

  lemma TextWith(a: Authorization, qop: string, verb: string, password: string, md5: string -> string)
    requires qop != ""
    ensures var ha1, ha2 := md5(a.username + ":" + a.realm + ":" + password), md5(verb + ":" + a.uri);
      StandardText(a.(qop := qop), verb, password, md5) == ha1 + ":" + (a.nonce + ":" + a.nc + ":" + a.cnonce + ":") + qop + (":" + ha2)
  {
    var ha1, ha2 := md5(a.username + ":" + a.realm + ":" + password), md5(verb + ":" + a.uri);
    var data := a.nonce + ":" + a.nc + ":" + a.cnonce + ":";
    assert ha1 + ":" + (data + qop + ":" + ha2) == ha1 + ":" + data + qop + (":" + ha2);
  }

  lemma SameMiddle(front: string, x: string, y: string, tail: string)
    requires front + x + tail == front + y + tail
    ensures x == y
  {
    var n := |front + x + tail| - |tail|;
    assert x == (front + x + tail)[|front|..n] && y == (front + y + tail)[|front|..n];
  }

  /** A qop spelled in capitals is accepted and digested as if it were not. */
  lemma CapitalQop() returns (a: Authorization, md5: string -> string)
    ensures a.qop == "AUTH" && Digest(a, "REGISTER", "secret", md5).Some?
    ensures Digest(a, "REGISTER", "secret", md5).value != md5(StandardText(a, "REGISTER", "secret", md5))
  {
    a := Authorization("u", "r", "n", "sip:r", "00", "", "AUTH", "c", "00000001");
    md5 := s => s;
    assert Lower("AUTH") == "auth";
    DigestIsTheStandardOneIff(a, "REGISTER", "secret", md5);
  }

  // ----- the transaction cache

  function TransportText(t: N.Transport): string { if t.Udp? then "udp" else "tcp" }

  function Key(transaction: string, source: N.Peer, device: string): string {
    transaction + "|" + source.address + "|" + TransportText(source.transport) + "|" + device
  }

  function KeyOf(req: Request): string { Key(req.transaction, req.source, req.device) }

  datatype Cached = Cached(result: Registration, expires: int)

  function PrunedCache(cache: map<string, Cached>, now: int): map<string, Cached> {
    map k | k in cache && now < cache[k].expires :: cache[k]
  }

  function AfterLookUp(cache: map<string, Cached>, req: Request, now: int): map<string, Cached> {
    if !ValidRequest(req) || req.transaction == "" then cache else PrunedCache(cache, now)
  }

  /** What the cache answers: None to go on. */
  function LookUp(cache: map<string, Cached>, req: Request, now: int): Option<Response> {
    if !ValidRequest(req) then Some(Failed(InvalidRequest))
    else if req.transaction != "" && KeyOf(req) in PrunedCache(cache, now) then Some(Done(cache[KeyOf(req)].result))
    else None
  }

  /** Room is made by dropping one entry, whichever the map yields first. */
  function Put(cache: map<string, Cached>, key: string, entry: Cached, victim: string): map<string, Cached> {
    (if |cache| >= MAX_TRANSACTIONS then cache - {victim} else cache)[key := entry]
  }

  function Remembered(cache: map<string, Cached>, req: Request, result: Registration, now: int, victim: string): map<string, Cached> {
    if req.transaction == "" then cache else Put(cache, KeyOf(req), Cached(result, now + 60 * SECOND), victim)
  }

  // ----- authentication and registration

  /** The checks before a nonce is consumed. */
  function Precheck(req: Request, device: Lookup): Option<Error> {
    if device.Unknown? then Some(UnknownDevice)
    else if device.device != req.device || req.realm != device.realm || !device.allows then Some(PeerNotAllowed)
    else if req.authorization.None? then Some(DigestRequired)
    else
      var a := req.authorization.value;
      if a.username != req.username || a.realm != device.realm || a.uri != req.uri then Some(DigestInvalid) else None
  }

  function TtlError(seconds: int): Option<Error> {
    if seconds == 0 || 60 <= seconds <= 3600 then None else Some(InvalidRequest)
  }

  /** The checks after a nonce was asked for. */
  function Postcheck(req: Request, device: Lookup, nonce: N.Answer, now: int, md5: string -> string): Option<Error>
    requires Precheck(req, device).None?
  {
    var a := req.authorization.value;
    if nonce.Replay? then Some(NonceReplay)
    else if nonce.Invalid? then Some(NonceInvalid)
    else if nonce.record.device != req.device || nonce.record.realm != device.realm || nonce.record.peer != req.source
         || nonce.record.uri != req.uri || nonce.record.expires <= now then Some(NonceInvalid)
    else
      var expected := Digest(a, req.verb, device.password, md5);
      if expected.None? || Lower(a.response) != expected.value then Some(DigestInvalid)
      else TtlError(req.expires)
  }

  function Registered(req: Request, now: int): Registration {
    if req.expires != 0 then Registration(req.device, req.source, now, now + req.expires * SECOND, true)
    else Registration(req.device, req.source, now, 0, false)
  }

  /** applyRegistration, where `applied` is the answer of the device store. */
  predicate Applies(req: Request, peer: PeerLookup, applied: bool) {
    !peer.LookupFailed? && (peer.PeerOf? ==> peer.device == "" || peer.device == req.device) && applied
  }

  // ----- interleaved calls

  /** A call that passed authentication has the place of its Consume in the nonce log. */
  datatype Stage = Looking(req: Request) | Accepted(req: Request, at: nat) | Applied(req: Request, at: nat, result: Registration)
  datatype Reply = Refused(call: nat, req: Request, error: Error)
                 | FromCache(call: nat, req: Request, result: Registration)
                 | Fresh(call: nat, req: Request, at: nat, result: Registration)
  datatype System = System(log: seq<N.Event>, cache: map<string, Cached>, calls: map<nat, Stage>, replies: seq<Reply>)

  datatype Event =
    | Challenge(nonce: string, record: N.Record, victim: string)
    | Begin(call: nat, req: Request, now: int)
    | Authenticate(call: nat, device: Lookup, now: int, later: int)
    | Apply(call: nat, peer: PeerLookup, applied: bool, now: int)
    | Remember(call: nat, now: int, victim: string)

  ghost predicate Enabled(s: System, e: Event) {
    match e
    case Challenge(nonce, record, victim) =>
      && nonce != "" && nonce !in N.Ledger(s.log)
      && (N.Size(N.Run(s.log)) >= N.MAX_NONCES ==> N.Least(N.Run(s.log), victim))
    case Begin(call, _, _) => call !in s.calls
    case Authenticate(call, _, _, _) => call in s.calls && s.calls[call].Looking?
    case Apply(call, _, _, _) => call in s.calls && s.calls[call].Accepted?
    case Remember(call, _, victim) =>
      call in s.calls && s.calls[call].Applied? && (|s.cache| >= MAX_TRANSACTIONS ==> victim in s.cache)
  }

  function Ended(s: System, reply: Reply): System {
    s.(calls := s.calls - {reply.call}, replies := s.replies + [reply])
  }

  function Begun(s: System, call: nat, req: Request, cache: map<string, Cached>, answer: Option<Response>): System {
    var looked := s.(cache := cache);
    match answer
    case None => looked.(calls := s.calls[call := Looking(req)])
    case Some(Done(result)) => Ended(looked, FromCache(call, req, result))
    case Some(Failed(error)) => Ended(looked, Refused(call, req, error))
  }

  function StepBegin(s: System, call: nat, req: Request, now: int): System {
    Begun(s, call, req, AfterLookUp(s.cache, req, now), LookUp(s.cache, req, now))
  }

  function Authenticated(s: System, call: nat, req: Request, e: N.Event, error: Option<Error>): System {
    var consumed := s.(log := s.log + [e]);
    if error.Some? then Ended(consumed, Refused(call, req, error.value))
    else consumed.(calls := s.calls[call := Accepted(req, |s.log|)])
  }

  function StepAuthenticate(s: System, call: nat, device: Lookup, now: int, later: int, md5: string -> string): System
    requires call in s.calls
  {
    var req := s.calls[call].req;
    if Precheck(req, device).Some? then Ended(s, Refused(call, req, Precheck(req, device).value))
    else
      var nonce := req.authorization.value.nonce;
      var error := Postcheck(req, device, N.AfterConsume(N.Run(s.log), nonce, now).1, later, md5);
      Authenticated(s, call, req, N.Consumed(nonce, now), error)
  }

  function StepApply(s: System, call: nat, peer: PeerLookup, applied: bool, now: int): System
    requires call in s.calls && s.calls[call].Accepted?
  {
    var req := s.calls[call].req;
    if Applies(req, peer, applied) then s.(calls := s.calls[call := Applied(req, s.calls[call].at, Registered(req, now))])
    else Ended(s, Refused(call, req, RegistrationConflict))
  }

  function StepRemember(s: System, call: nat, now: int, victim: string): System
    requires call in s.calls && s.calls[call].Applied?
  {
    var c := s.calls[call];
    Ended(s.(cache := Remembered(s.cache, c.req, c.result, now, victim)), Fresh(call, c.req, c.at, c.result))
  }

  ghost function Step(s: System, e: Event, md5: string -> string): System
    requires Enabled(s, e)
  {
    match e
    case Challenge(nonce, record, victim) => s.(log := s.log + [N.Issued(nonce, record, victim)])
    case Begin(call, req, now) => StepBegin(s, call, req, now)
    case Authenticate(call, device, now, later) => StepAuthenticate(s, call, device, now, later, md5)
    case Apply(call, peer, applied, now) => StepApply(s, call, peer, applied, now)
    case Remember(call, now, victim) => StepRemember(s, call, now, victim)
  }

  /** The state after a run; None if some event was not enabled where it came. */
  ghost function Run(events: seq<Event>, md5: string -> string): Option<System> {
    if events == [] then Some(System([], map[], map[], []))
    else
      var s := Run(events[..|events| - 1], md5);
      if s.Some? && Enabled(s.value, events[|events| - 1]) then Some(Step(s.value, events[|events| - 1], md5)) else None
  }

  // ----- what every reachable state keeps

  /** What the Consumes of a nonce log handed out, by place. */
  datatype Hand = Hand(nonce: string, record: N.Record)

  function Handed(log: seq<N.Event>): map<nat, Hand> {
    if log == [] then map[]
    else
      var n := |log| - 1;
      var before := Handed(log[..n]);
      if N.AnswerAt(log, n).Taken? then before[n := Hand(log[n].nonce, N.AnswerAt(log, n).record)] else before
  }

  /** Place `at` handed out the nonce this request presented, issued for its device, realm, peer and URI. */
  predicate Backed(handed: map<nat, Hand>, req: Request, at: nat) {
    && at in handed && req.authorization.Some? && handed[at].nonce == req.authorization.value.nonce
    && var record := handed[at].record;
       record.device == req.device && record.realm == req.realm && record.peer == req.source && record.uri == req.uri
  }

  ghost predicate CallsBacked(handed: map<nat, Hand>, calls: map<nat, Stage>) {
    && (forall c :: c in calls && !calls[c].Looking? ==> Backed(handed, calls[c].req, calls[c].at))
    && (forall c, d :: c in calls && d in calls && c != d && !calls[c].Looking? && !calls[d].Looking? ==> calls[c].at != calls[d].at)
  }

  ghost predicate RepliesBacked(handed: map<nat, Hand>, replies: seq<Reply>) {
    && (forall i :: 0 <= i < |replies| && replies[i].Fresh? ==> Backed(handed, replies[i].req, replies[i].at))
    && (forall i, j :: 0 <= i < j < |replies| && replies[i].Fresh? && replies[j].Fresh? ==> replies[i].at != replies[j].at)
  }

  /** No call is working with a nonce that a reply has used. */
  ghost predicate Separate(calls: map<nat, Stage>, replies: seq<Reply>) {
    forall i, c :: 0 <= i < |replies| && replies[i].Fresh? && c in calls && !calls[c].Looking? ==> replies[i].at != calls[c].at
  }

  /** Reply `j` is a fresh reply with this key and result. */
  predicate Answers(replies: seq<Reply>, j: int, key: string, result: Registration) {
    0 <= j < |replies| && replies[j].Fresh? && replies[j].req.transaction != "" && KeyOf(replies[j].req) == key && replies[j].result == result
  }

  ghost predicate CacheBacked(cache: map<string, Cached>, replies: seq<Reply>) {
    forall k :: k in cache ==> exists j :: Answers(replies, j, k, cache[k].result)
  }

  ghost predicate RepeatsBacked(replies: seq<Reply>) {
    forall i :: 0 <= i < |replies| && replies[i].FromCache? ==>
      exists j :: j < i && Answers(replies, j, KeyOf(replies[i].req), replies[i].result)
  }

  /** Only valid requests get past the first checks. */
  ghost predicate AllValid(calls: map<nat, Stage>, replies: seq<Reply>) {
    && (forall c :: c in calls ==> ValidRequest(calls[c].req))
    && (forall i :: 0 <= i < |replies| && !replies[i].Refused? ==> ValidRequest(replies[i].req))
  }

  /** Everybody who was let in has a nonce of their own. */
  ghost predicate AllBacked(handed: map<nat, Hand>, calls: map<nat, Stage>, replies: seq<Reply>) {
    CallsBacked(handed, calls) && RepliesBacked(handed, replies) && Separate(calls, replies)
  }

  ghost predicate CacheOk(cache: map<string, Cached>, replies: seq<Reply>) {
    |cache| <= MAX_TRANSACTIONS && CacheBacked(cache, replies) && RepeatsBacked(replies)
  }

  ghost predicate Inv(s: System) {
    N.Allowed(s.log) && AllBacked(Handed(s.log), s.calls, s.replies) && CacheOk(s.cache, s.replies) && AllValid(s.calls, s.replies)
  }

  lemma AllowedMore(log: seq<N.Event>, e: N.Event)
    requires N.Allowed(log)
    requires e.Issued? ==> e.nonce != "" && e.nonce !in N.Ledger(log) && (N.Size(N.Run(log)) >= N.MAX_NONCES ==> N.Least(N.Run(log), e.victim))
    ensures N.Allowed(log + [e])
  {
    var more := log + [e];
    forall i | 0 <= i < |more| && more[i].Issued? ensures N.AllowedAt(more, i) {
      assert more[..i] == log[..i];
      if i < |log| { assert N.AllowedAt(log, i); } else { assert log[..i] == log; }
    }
  }

  lemma HandedMore(log: seq<N.Event>, e: N.Event)
    ensures Handed(log + [e]) == if N.AnswerAt(log + [e], |log|).Taken? then Handed(log)[|log| := Hand(e.nonce, N.AnswerAt(log + [e], |log|).record)] else Handed(log)
    ensures |log| !in Handed(log)
  {
    assert (log + [e])[..|log|] == log;
    if |log| in Handed(log) { HandedMeaning(log, |log|); }
  }

  lemma {:induction false} HandedMeaning(log: seq<N.Event>, at: nat)
    requires at in Handed(log)
    ensures at < |log| && log[at].Consumed? && N.AnswerAt(log, at) == N.Taken(Handed(log)[at].record) && log[at].nonce == Handed(log)[at].nonce
  {
    var n := |log| - 1;
    if !(N.AnswerAt(log, n).Taken? && at == n) {
      HandedMeaning(log[..n], at);
      assert log[..n][..at] == log[..at];
    }
  }

  lemma LogGrows(s: System, e: N.Event)
    requires Inv(s)
    requires e.Issued? ==> e.nonce != "" && e.nonce !in N.Ledger(s.log) && (N.Size(N.Run(s.log)) >= N.MAX_NONCES ==> N.Least(N.Run(s.log), e.victim))
    ensures Inv(s.(log := s.log + [e]))
  {
    AllowedMore(s.log, e);
    HandedMore(s.log, e);
    AllBackedMore(Handed(s.log), Handed(s.log + [e]), s.calls, s.replies);
  }

  lemma AllBackedMore(handed: map<nat, Hand>, more: map<nat, Hand>, calls: map<nat, Stage>, replies: seq<Reply>)
    requires AllBacked(handed, calls, replies) && forall at :: at in handed ==> at in more && more[at] == handed[at]
    ensures AllBacked(more, calls, replies)
  {}

  lemma CacheBackedMore(cache: map<string, Cached>, replies: seq<Reply>, reply: Reply)
    requires CacheBacked(cache, replies)
    ensures CacheBacked(cache, replies + [reply])
  {
    forall k | k in cache ensures exists j :: Answers(replies + [reply], j, k, cache[k].result) {
      var j :| Answers(replies, j, k, cache[k].result);
      assert Answers(replies + [reply], j, k, cache[k].result);
    }
  }

  lemma RepeatsBackedMore(replies: seq<Reply>, reply: Reply)
    requires RepeatsBacked(replies)
    requires reply.FromCache? ==> exists j :: Answers(replies, j, KeyOf(reply.req), reply.result)
    ensures RepeatsBacked(replies + [reply])
  {
    var more := replies + [reply];
    forall i | 0 <= i < |more| && more[i].FromCache? ensures exists j :: j < i && Answers(more, j, KeyOf(more[i].req), more[i].result) {
      var j :| j < i && Answers(replies, j, KeyOf(more[i].req), more[i].result);
      assert Answers(more, j, KeyOf(more[i].req), more[i].result);
    }
  }

  lemma RepliesBackedMore(handed: map<nat, Hand>, calls: map<nat, Stage>, replies: seq<Reply>, reply: Reply)
    requires AllBacked(handed, calls, replies)
    requires reply.Fresh? ==> reply.call in calls && calls[reply.call].Applied? && reply.at == calls[reply.call].at && reply.req == calls[reply.call].req
    ensures AllBacked(handed, calls - {reply.call}, replies + [reply])
  {}

  lemma CacheOkMore(cache: map<string, Cached>, replies: seq<Reply>, reply: Reply)
    requires CacheOk(cache, replies)
    requires reply.FromCache? ==> exists j :: Answers(replies, j, KeyOf(reply.req), reply.result)
    ensures CacheOk(cache, replies + [reply])
  {
    CacheBackedMore(cache, replies, reply);
    RepeatsBackedMore(replies, reply);
  }

  lemma AllValidMore(calls: map<nat, Stage>, replies: seq<Reply>, reply: Reply)
    requires AllValid(calls, replies) && (!reply.Refused? ==> ValidRequest(reply.req))
    ensures AllValid(calls - {reply.call}, replies + [reply])
  {}

  /** A call ends with a reply that is not fresh, or that is the fresh one it was working on. */
  lemma EndedKeeps(s: System, reply: Reply)
    requires Inv(s)
    requires reply.Fresh? ==> reply.call in s.calls && s.calls[reply.call].Applied? && reply.at == s.calls[reply.call].at && reply.req == s.calls[reply.call].req
    requires reply.FromCache? ==> exists j :: Answers(s.replies, j, KeyOf(reply.req), reply.result)
    requires !reply.Refused? ==> ValidRequest(reply.req)
    ensures Inv(Ended(s, reply))
  {
    RepliesBackedMore(Handed(s.log), s.calls, s.replies, reply);
    CacheOkMore(s.cache, s.replies, reply);
    AllValidMore(s.calls, s.replies, reply);
  }

  lemma LookUpFacts(cache: map<string, Cached>, req: Request, now: int)
    ensures forall k :: k in AfterLookUp(cache, req, now) ==> k in cache && AfterLookUp(cache, req, now)[k] == cache[k]
    ensures var answer := LookUp(cache, req, now);
      answer.Some? && answer.value.Done? ==> KeyOf(req) in cache && cache[KeyOf(req)].result == answer.value.registration
    ensures LookUp(cache, req, now) == Some(Failed(InvalidRequest)) || ValidRequest(req)
  {}

  lemma BegunKeeps(s: System, call: nat, req: Request, cache: map<string, Cached>, answer: Option<Response>)
    requires Inv(s) && call !in s.calls
    requires forall k :: k in cache ==> k in s.cache && cache[k] == s.cache[k]
    requires answer.Some? && answer.value.Done? ==> KeyOf(req) in s.cache && s.cache[KeyOf(req)].result == answer.value.registration
    requires answer == Some(Failed(InvalidRequest)) || ValidRequest(req)
    ensures Inv(Begun(s, call, req, cache, answer))
  {
    var looked := s.(cache := cache);
    N.Smaller(cache.Keys, s.cache.Keys);
    assert Inv(looked);
    match answer
    case None =>
    case Some(Done(result)) => EndedKeeps(looked, FromCache(call, req, result));
    case Some(Failed(error)) => EndedKeeps(looked, Refused(call, req, error));
  }

  lemma PostcheckPasses(req: Request, device: Lookup, nonce: N.Answer, now: int, md5: string -> string)
    requires Precheck(req, device).None? && Postcheck(req, device, nonce, now, md5).None?
    ensures nonce.Taken? && nonce.record.device == req.device && nonce.record.realm == req.realm
    ensures nonce.record.peer == req.source && nonce.record.uri == req.uri
  {}

  /** A call is let in with a nonce nobody else has. */
  lemma AcceptedBacked(handed: map<nat, Hand>, calls: map<nat, Stage>, replies: seq<Reply>, call: nat, req: Request, at: nat)
    requires AllBacked(handed, calls, replies) && Backed(handed, req, at)
    requires forall c :: c in calls && !calls[c].Looking? ==> calls[c].at != at
    requires forall i :: 0 <= i < |replies| && replies[i].Fresh? ==> replies[i].at != at
    ensures AllBacked(handed, calls[call := Accepted(req, at)], replies)
  {}

  /** What the log has not handed out yet nobody has. */
  lemma NobodyHas(s: System, at: nat)
    requires Inv(s) && at !in Handed(s.log)
    ensures forall c :: c in s.calls && !s.calls[c].Looking? ==> s.calls[c].at != at
    ensures forall i :: 0 <= i < |s.replies| && s.replies[i].Fresh? ==> s.replies[i].at != at
  {}

  lemma AuthenticatedKeeps(s: System, call: nat, e: N.Event, error: Option<Error>)
    requires Inv(s) && call in s.calls && s.calls[call].Looking? && e.Consumed?
    requires error.None? ==> Backed(Handed(s.log + [e]), s.calls[call].req, |s.log|)
    ensures Inv(Authenticated(s, call, s.calls[call].req, e, error))
  {
    var consumed := s.(log := s.log + [e]);
    LogGrows(s, e);
    if error.Some? {
      EndedKeeps(consumed, Refused(call, s.calls[call].req, error.value));
    } else {
      HandedMore(s.log, e);
      NobodyHas(s, |s.log|);
      AcceptedBacked(Handed(consumed.log), s.calls, s.replies, call, s.calls[call].req, |s.log|);
    }
  }

  lemma AuthenticateKeeps(s: System, call: nat, device: Lookup, now: int, later: int, md5: string -> string)
    requires Inv(s) && call in s.calls && s.calls[call].Looking?
    ensures Inv(StepAuthenticate(s, call, device, now, later, md5))
  {
    var req := s.calls[call].req;
    if Precheck(req, device).Some? {
      EndedKeeps(s, Refused(call, req, Precheck(req, device).value));
    } else {
      var nonce := req.authorization.value.nonce;
      var e, answer := N.Consumed(nonce, now), N.AfterConsume(N.Run(s.log), nonce, now).1;
      if Postcheck(req, device, answer, later, md5).None? {
        PostcheckPasses(req, device, answer, later, md5);
        HandedMore(s.log, e);
        assert (s.log + [e])[..|s.log|] == s.log;
      }
      AuthenticatedKeeps(s, call, e, Postcheck(req, device, answer, later, md5));
    }
  }

  lemma ApplyKeeps(s: System, call: nat, peer: PeerLookup, applied: bool, now: int)
    requires Inv(s) && call in s.calls && s.calls[call].Accepted?
    ensures Inv(StepApply(s, call, peer, applied, now))
  {
    var req := s.calls[call].req;
    if !Applies(req, peer, applied) { EndedKeeps(s, Refused(call, req, RegistrationConflict)); }
  }

  lemma PutSize(cache: map<string, Cached>, key: string, entry: Cached, victim: string)
    requires |cache| <= MAX_TRANSACTIONS && (|cache| >= MAX_TRANSACTIONS ==> victim in cache)
    ensures |Put(cache, key, entry, victim)| <= MAX_TRANSACTIONS
  {
    N.RemoveOne(cache, victim);
    N.AddOne(if |cache| >= MAX_TRANSACTIONS then cache - {victim} else cache, key, entry);
  }

  lemma PutBacked(cache: map<string, Cached>, replies: seq<Reply>, key: string, entry: Cached, victim: string, j: nat)
    requires CacheBacked(cache, replies) && Answers(replies, j, key, entry.result)
    ensures CacheBacked(Put(cache, key, entry, victim), replies)
  {
    var t := Put(cache, key, entry, victim);
    forall k | k in t ensures exists i :: Answers(replies, i, k, t[k].result) {
      if k != key { assert t[k] == cache[k]; }
    }
  }

  lemma RememberKeeps(s: System, call: nat, now: int, victim: string)
    requires Inv(s) && call in s.calls && s.calls[call].Applied? && (|s.cache| >= MAX_TRANSACTIONS ==> victim in s.cache)
    ensures Inv(StepRemember(s, call, now, victim))
  {
    var c := s.calls[call];
    var reply := Fresh(call, c.req, c.at, c.result);
    EndedKeeps(s, reply);
    if c.req.transaction != "" {
      var entry := Cached(c.result, now + 60 * SECOND);
      PutSize(s.cache, KeyOf(c.req), entry, victim);
      PutBacked(s.cache, s.replies + [reply], KeyOf(c.req), entry, victim, |s.replies|);
    }
  }

  lemma StepKeeps(s: System, e: Event, md5: string -> string)
    requires Inv(s) && Enabled(s, e)
    ensures Inv(Step(s, e, md5))
  {
    match e
    case Challenge(nonce, record, victim) => LogGrows(s, N.Issued(nonce, record, victim));
    case Begin(call, req, now) =>
      LookUpFacts(s.cache, req, now);
      BegunKeeps(s, call, req, AfterLookUp(s.cache, req, now), LookUp(s.cache, req, now));
    case Authenticate(call, device, now, later) => AuthenticateKeeps(s, call, device, now, later, md5);
    case Apply(call, peer, applied, now) => ApplyKeeps(s, call, peer, applied, now);
    case Remember(call, now, victim) => RememberKeeps(s, call, now, victim);
  }

  lemma {:induction false} RunKeeps(events: seq<Event>, md5: string -> string)
    ensures Run(events, md5).Some? ==> Inv(Run(events, md5).value)
  {
    if events != [] && Run(events, md5).Some? {
      RunKeeps(events[..|events| - 1], md5);
      StepKeeps(Run(events[..|events| - 1], md5).value, events[|events| - 1], md5);
    }
  }

  // ----- main results

  /** Main result. Every 200 that did not come from the cache consumed a nonce of its own,
      which had been issued for the same device, realm, peer and URI. */
  lemma FreshRepliesOwnTheirNonce(events: seq<Event>, md5: string -> string, i: nat) returns (k: nat)
    requires Run(events, md5).Some?
    requires i < |Run(events, md5).value.replies| && Run(events, md5).value.replies[i].Fresh?
    ensures var s := Run(events, md5).value; var req := s.replies[i].req;
      && k < |s.log| && s.log[k].Issued? && req.authorization.Some? && s.log[k].nonce == req.authorization.value.nonce
      && s.log[k].record.device == req.device && s.log[k].record.realm == req.realm
      && s.log[k].record.peer == req.source && s.log[k].record.uri == req.uri
    ensures var replies := Run(events, md5).value.replies;
      forall j :: 0 <= j < |replies| && j != i && replies[j].Fresh? ==>
        replies[j].req.authorization.Some? && replies[j].req.authorization.value.nonce != replies[i].req.authorization.value.nonce
  {
    RunKeeps(events, md5);
    var s := Run(events, md5).value;
    HandedMeaning(s.log, s.replies[i].at);
    k := N.TakenAsIssued(s.log, s.replies[i].at);
    forall j | 0 <= j < |s.replies| && j != i && s.replies[j].Fresh?
      ensures s.replies[j].req.authorization.Some?
      ensures s.replies[j].req.authorization.value.nonce != s.replies[i].req.authorization.value.nonce
    {
      HandedMeaning(s.log, s.replies[j].at);
      var a, b := s.replies[i].at, s.replies[j].at;
      if a < b { N.TakenOnce(s.log, a, b); } else { N.TakenOnce(s.log, b, a); }
    }
  }

  /** `longer` is something, a bar, and then `shorter`. */
  predicate EndsWithBarAnd(longer: string, shorter: string) {
    |shorter| < |longer| && longer[|longer| - |shorter| - 1..] == "|" + shorter
  }

  /** Over these peer addresses, the cache key tells transactions, peers and devices apart. */
  ghost predicate KeyTellsApart(addresses: set<string>) {
    forall t, p: N.Peer, d, t', p': N.Peer, d' | p.address in addresses && p'.address in addresses && ValidDevice(d) && ValidDevice(d') ::
      Key(t, p, d) == Key(t', p', d') ==> t == t' && p == p' && d == d'
  }

  lemma SameTails<T>(a: seq<T>, x: seq<T>, b: seq<T>, y: seq<T>)
    requires a + x == b + y && |x| == |y|
    ensures a == b && x == y
  {
    assert a == (a + x)[..|a|] && b == (b + y)[..|b|];
    assert x == (a + x)[|a|..] && y == (b + y)[|b|..];
  }

  lemma BeforeLastBar(t: string, a: string, t': string, a': string)
    requires t + "|" + a == t' + "|" + a' && !EndsWithBarAnd(a, a') && !EndsWithBarAnd(a', a)
    ensures t == t' && a == a'
  {
    if |a| == |a'| {
      SameTails(t + "|", a, t' + "|", a');
      SameTails(t, "|", t', "|");
    } else if |a'| < |a| {
      BarInside(t, a, t', a');
    } else {
      BarInside(t', a', t, a);
    }
  }

  lemma BarInside(t: string, a: string, t': string, a': string)
    requires t + "|" + a == t' + "|" + a' && |a'| < |a|
    ensures EndsWithBarAnd(a, a')
  {
    var n := |a| - |a'| - 1;
    assert t + "|" + a == (t + "|" + a[..n]) + a[n..];
    assert t' + "|" + a' == t' + ("|" + a');
    SameTails(t + "|" + a[..n], a[n..], t', "|" + a');
  }

  lemma KeyParts(t: string, p: N.Peer, d: string, t': string, p': N.Peer, d': string)
    requires |d| == |d'| && Key(t, p, d) == Key(t', p', d')
    ensures t + "|" + p.address == t' + "|" + p'.address && p.transport == p'.transport && d == d'
  {
    var x, x' := TransportText(p.transport), TransportText(p'.transport);
    SameTails(t + "|" + p.address + "|" + x + "|", d, t' + "|" + p'.address + "|" + x' + "|", d');
    SameTails(t + "|" + p.address + "|" + x, "|", t' + "|" + p'.address + "|" + x', "|");
    SameTails(t + "|" + p.address + "|", x, t' + "|" + p'.address + "|", x');
    SameTails(t + "|" + p.address, "|", t' + "|" + p'.address, "|");
    assert "udp"[0] == 'u' && "tcp"[0] == 't';
  }

  lemma KeyCollides(a: string, b: string) returns (t: string, t': string, d: string)
    requires EndsWithBarAnd(a, b)
    ensures t != t' && ValidDevice(d) && Key(t, N.Peer(a, N.Udp), d) == Key(t', N.Peer(b, N.Udp), d)
  {
    var u := a[..|a| - |b| - 1];
    t, t', d := "1", "1|" + u, "00000000000000000000";
    assert a == u + ("|" + b);
    assert t + "|" + a == t' + "|" + b;
  }

  /** Main result. The bars in the key are unambiguous for every transaction ID, with or
      without bars in it, exactly if no peer address ends with a bar and another peer address. */
  lemma KeyTellsApartIff(addresses: set<string>)
    ensures KeyTellsApart(addresses) <==> forall a, b :: a in addresses && b in addresses ==> !EndsWithBarAnd(a, b)
  {
    if a, b :| a in addresses && b in addresses && EndsWithBarAnd(a, b) {
      var t, t', d := KeyCollides(a, b);
      var p, p' := N.Peer(a, N.Udp), N.Peer(b, N.Udp);
      assert p.address in addresses && p'.address in addresses && Key(t, p, d) == Key(t', p', d) && t != t';
    } else {
      forall t, p: N.Peer, d, t', p': N.Peer, d' | p.address in addresses && p'.address in addresses && ValidDevice(d) && ValidDevice(d')
        && Key(t, p, d) == Key(t', p', d')
        ensures t == t' && p == p' && d == d'
      {
        KeyParts(t, p, d, t', p', d');
        BeforeLastBar(t, p.address, t', p'.address);
      }
    }
  }

  /** Main result. A reply from the cache repeats the result of an earlier fresh reply, and
      where the key is unambiguous, to the same transaction of the same peer and device. */
  lemma CachedRepliesRepeat(events: seq<Event>, md5: string -> string, i: nat, addresses: set<string>) returns (j: nat)
    requires Run(events, md5).Some?
    requires var replies := Run(events, md5).value.replies;
      && i < |replies| && replies[i].FromCache?
      && forall k :: 0 <= k < |replies| ==> replies[k].req.source.address in addresses
    requires forall a, b :: a in addresses && b in addresses ==> !EndsWithBarAnd(a, b)
    ensures var replies := Run(events, md5).value.replies;
      && j < i && replies[j].Fresh? && replies[j].result == replies[i].result
      && replies[j].req.transaction == replies[i].req.transaction
      && replies[j].req.source == replies[i].req.source && replies[j].req.device == replies[i].req.device
  {
    RunKeeps(events, md5);
    var replies := Run(events, md5).value.replies;
    j :| j < i && Answers(replies, j, KeyOf(replies[i].req), replies[i].result);
    KeyTellsApartIff(addresses);
    var a, b := replies[i].req, replies[j].req;
    assert Key(a.transaction, a.source, a.device) == Key(b.transaction, b.source, b.device);
  }

  /** A hit in the cache touches neither the nonces nor the calls under way. */
  lemma CachedTouchesNothing(s: System, call: nat, req: Request, now: int)
    requires call !in s.calls && LookUp(s.cache, req, now).Some? && LookUp(s.cache, req, now).value.Done?
    ensures var t := StepBegin(s, call, req, now);
      && t.log == s.log && t.calls == s.calls && KeyOf(req) in s.cache && now < s.cache[KeyOf(req)].expires
      && t.replies == s.replies + [FromCache(call, req, s.cache[KeyOf(req)].result)]
  {
    assert s.calls - {call} == s.calls;
  }

  /** Main result. The cache never holds more than 1024 transactions. */
  lemma CacheStaysBounded(events: seq<Event>, md5: string -> string)
    requires Run(events, md5).Some?
    ensures |Run(events, md5).value.cache| <= 1024
  {
    RunKeeps(events, md5);
  }
}
