/** Retransmissions over every interleaving: when a REGISTER is answered from the cache of
    recent transactions, with which result, and what such a result says. */
module RegisterCache {
  import opened Prelude
  import N = NonceStore
  import opened Register
  import opened RegisterRuns

  const KEPT := 60 * SECOND

  function Entry(s: System, key: string): Option<Cached> { if key in s.cache then Some(s.cache[key]) else None }

  /** The event stores a result under the key. */
  ghost predicate Stores(s: System, e: Event, key: string) {
    && e.Remember? && e.call in s.calls && s.calls[e.call].Applied?
    && s.calls[e.call].req.transaction != "" && KeyOf(s.calls[e.call].req) == key
  }

  /** What takes an entry that holds until `until` away: a later result under its key, room made
      for another, or a lookup by anybody at a reading at or past `until`. */
  ghost predicate Loses(s: System, e: Event, key: string, until: int) {
    match e
    case Begin(_, req, now) => ValidRequest(req) && req.transaction != "" && until <= now
    case Remember(call, _, victim) =>
      Stores(s, e, key)
      || (call in s.calls && s.calls[call].Applied? && s.calls[call].req.transaction != "" && |s.cache| >= 1024 && victim == key)
    case _ => false
  }

  lemma AuthenticateKeepsCache(s: System, e: Event, md5: string -> string)
    ensures e.Authenticate? && e.call in s.calls ==> StepAuthenticate(s, e.call, e.device, e.now, e.later, md5).cache == s.cache
  {}

  lemma BeginCache(s: System, e: Event, key: string)
    requires e.Begin?
    ensures Entry(StepBegin(s, e.call, e.req, e.now), key)
      == if Entry(s, key).Some? && Loses(s, e, key, s.cache[key].expires) then None else Entry(s, key)
  {}

  lemma StepCache(s: System, e: Event, md5: string -> string, key: string)
    requires Enabled(s, e)
    ensures var before, after := Entry(s, key), Entry(Step(s, e, md5), key);
      if Stores(s, e, key) then after == Some(Cached(s.calls[e.call].result, e.now + KEPT))
      else if before.Some? && Loses(s, e, key, before.value.expires) then after.None?
      else after == before
  {
    match e
    case Begin(_, _, _) => BeginCache(s, e, key);
    case Authenticate(_, _, _, _) => AuthenticateKeepsCache(s, e, md5);
    case _ =>
  }

  // ----- along a run

  ghost predicate At(events: seq<Event>, md5: string -> string, n: nat) {
    n < |events| && Run(events[..n], md5).Some? && Enabled(Run(events[..n], md5).value, events[n])
  }

  /** Event `r` stores a result under the key. */
  ghost predicate StoresAt(events: seq<Event>, md5: string -> string, r: nat, key: string) {
    At(events, md5, r) && Stores(Run(events[..r], md5).value, events[r], key)
  }

  /** What event `r` stores under the key, if it does. */
  ghost function StoredAt(events: seq<Event>, md5: string -> string, r: nat, key: string): Option<Cached> {
    if StoresAt(events, md5, r, key)
    then Some(Cached(Run(events[..r], md5).value.calls[events[r].call].result, events[r].now + KEPT))
    else None
  }

  ghost predicate LosesAt(events: seq<Event>, md5: string -> string, k: nat, key: string, until: int) {
    At(events, md5, k) && Loses(Run(events[..k], md5).value, events[k], key, until)
  }

  ghost function EntryAt(events: seq<Event>, md5: string -> string, n: nat, key: string): Option<Cached> {
    if n <= |events| && Run(events[..n], md5).Some? then Entry(Run(events[..n], md5).value, key) else None
  }

  ghost function Stored(events: seq<Event>, md5: string -> string, key: string): nat -> Option<Cached> {
    (r: nat) => StoredAt(events, md5, r, key)
  }

  ghost function Losing(events: seq<Event>, md5: string -> string, key: string): (nat, int) -> bool {
    (k: nat, until: int) => LosesAt(events, md5, k, key, until)
  }

  ghost function Entries(events: seq<Event>, md5: string -> string, key: string): nat -> Option<Cached> {
    (n: nat) => EntryAt(events, md5, n, key)
  }

  /** What event `r` stored has not been taken away before event `n`. */
  ghost predicate Stands(stored: nat -> Option<Cached>, loses: (nat, int) -> bool, r: nat, n: nat) {
    && r < n && stored(r).Some?
    && forall k: nat :: r < k < n ==> !loses(k, stored(r).value.expires)
  }

  /** From event to event, what is stored is there, and stays until it is lost. */
  predicate Follows(entry: nat -> Option<Cached>, stored: nat -> Option<Cached>, loses: (nat, int) -> bool, n: nat) {
    if stored(n).Some? then entry(n + 1) == stored(n)
    else if entry(n).Some? && loses(n, entry(n).value.expires) then entry(n + 1).None?
    else entry(n + 1) == entry(n)
  }

  /** What stands is there. */
  lemma {:induction false} StandingIsThere(entry: nat -> Option<Cached>, stored: nat -> Option<Cached>, loses: (nat, int) -> bool, r: nat, n: nat)
    requires forall k: nat :: k < n ==> Follows(entry, stored, loses, k)
    requires forall k: nat, until: int :: stored(k).Some? ==> loses(k, until)
    requires Stands(stored, loses, r, n)
    ensures entry(n) == stored(r)
  {
    assert Follows(entry, stored, loses, n - 1);
    if r < n - 1 {
      StandingIsThere(entry, stored, loses, r, n - 1);
      assert !loses(n - 1, stored(r).value.expires);
    }
  }

  /** What is there stands. */
  lemma {:induction false} ThereIsStanding(entry: nat -> Option<Cached>, stored: nat -> Option<Cached>, loses: (nat, int) -> bool, n: nat) returns (r: nat)
    requires forall k: nat :: k < n ==> Follows(entry, stored, loses, k)
    requires entry(0).None? && entry(n).Some?
    ensures Stands(stored, loses, r, n) && entry(n) == stored(r)
  {
    r := n - 1;
    assert Follows(entry, stored, loses, n - 1);
    if stored(n - 1).None? { r := ThereIsStanding(entry, stored, loses, n - 1); }
  }

  lemma EntryNext(events: seq<Event>, md5: string -> string, n: nat, key: string)
    requires n < |events|
    ensures Run(events, md5).Some? ==> Follows(Entries(events, md5, key), Stored(events, md5, key), Losing(events, md5, key), n)
  {
    if Run(events, md5).Some? {
      RunPrefix(events, md5, n + 1);
      RunNext(events, md5, n);
      var s := Run(events[..n], md5).value;
      StepCache(s, events[n], md5, key);
      AtEvent(events, md5, n, key, s);
      assert EntryAt(events, md5, n + 1, key) == Entry(Step(s, events[n], md5), key);
    }
  }

  lemma AtEvent(events: seq<Event>, md5: string -> string, n: nat, key: string, s: System)
    ensures n < |events| && Run(events[..n], md5) == Some(s) && Enabled(s, events[n]) ==> IsAt(events, md5, n, key, s)
  {}

  /** The entry, and what the event stores and loses, as seen from the state before it. */
  ghost predicate IsAt(events: seq<Event>, md5: string -> string, n: nat, key: string, s: System) {
    && n < |events|
    && EntryAt(events, md5, n, key) == Entry(s, key)
    && StoredAt(events, md5, n, key) == (if Stores(s, events[n], key) then Some(Cached(s.calls[events[n].call].result, events[n].now + KEPT)) else None)
    && forall until :: LosesAt(events, md5, n, key, until) <==> Loses(s, events[n], key, until)
  }

  lemma StoringLoses(events: seq<Event>, md5: string -> string, key: string, n: nat, until: int)
    ensures Stored(events, md5, key)(n).Some? ==> Losing(events, md5, key)(n, until)
  {}

  lemma NothingAtFirst(events: seq<Event>, md5: string -> string, key: string)
    ensures Entries(events, md5, key)(0).None?
  {
    assert events[..0] == [];
  }

  /** Event `b` is answered from the cache with this result, and that ends its call. */
  ghost predicate AnsweredWith(events: seq<Event>, md5: string -> string, b: nat, result: Registration) {
    && b < |events| && events[b].Begin? && Run(events[..b], md5).Some? && Run(events[..b + 1], md5).Some?
    && var s, t := Run(events[..b], md5).value, Run(events[..b + 1], md5).value;
    t.replies == s.replies + [FromCache(events[b].call, events[b].req, result)] && events[b].call !in t.calls
  }

  /** Event `b` lets its call go on to authentication. */
  ghost predicate GoesOn(events: seq<Event>, md5: string -> string, b: nat) {
    && b < |events| && events[b].Begin? && Run(events[..b], md5).Some? && Run(events[..b + 1], md5).Some?
    && var s, t := Run(events[..b], md5).value, Run(events[..b + 1], md5).value;
    t.replies == s.replies && events[b].call in t.calls && t.calls[events[b].call] == Looking(events[b].req)
  }

  lemma BeginAnswers(s: System, e: Event)
    requires e.Begin? && e.call !in s.calls && ValidRequest(e.req)
    ensures var t, key := StepBegin(s, e.call, e.req, e.now), KeyOf(e.req);
      if e.req.transaction != "" && Entry(s, key).Some? && e.now < s.cache[key].expires
      then t.replies == s.replies + [FromCache(e.call, e.req, s.cache[key].result)] && e.call !in t.calls
      else t.replies == s.replies && e.call in t.calls && t.calls[e.call] == Looking(e.req)
  {}

  /** Main result. In every interleaving, a valid request with a transaction ID is answered from the
      cache if and only if an earlier fresh reply of its key was stored less than sixty seconds
      before, and since then it was neither replaced by a later one, nor evicted, nor dropped by a
      lookup at a reading sixty seconds or more after it was stored. The answer then repeats that very result. */
  lemma RetransmissionIff(events: seq<Event>, md5: string -> string, b: nat)
    requires b < |events| && events[b].Begin? && ValidRequest(events[b].req) && events[b].req.transaction != ""
    ensures Run(events, md5).Some? ==> AnsweredFromCacheIff(events, md5, b)
  {
    if Run(events, md5).Some? {
      var key := KeyOf(events[b].req);
      var entry, stored, loses := Entries(events, md5, key), Stored(events, md5, key), Losing(events, md5, key);
      RunPrefix(events, md5, b + 1);
      RunNext(events, md5, b);
      BeginAnswers(Run(events[..b], md5).value, events[b]);
      forall k: nat | k < b ensures Follows(entry, stored, loses, k) { EntryNext(events, md5, k, key); }
      forall k: nat, until: int | stored(k).Some? ensures loses(k, until) { StoringLoses(events, md5, key, k, until); }
      NothingAtFirst(events, md5, key);
      if entry(b).Some? {
        var r := ThereIsStanding(entry, stored, loses, b);
        assert events[b].now < entry(b).value.expires ==> StandsAt(events, md5, r, b);
      }
      forall r | StandsAt(events, md5, r, b) ensures AnsweredWith(events, md5, b, stored(r).value.result) {
        StandingIsThere(entry, stored, loses, r, b);
      }
    }
  }

  /** Answered with a result that stands, if one does; otherwise not from the cache. */
  ghost predicate AnsweredFromCacheIff(events: seq<Event>, md5: string -> string, b: nat) {
    && b < |events| && events[b].Begin?
    && (forall r :: StandsAt(events, md5, r, b) ==> AnsweredWith(events, md5, b, StoredAt(events, md5, r, KeyOf(events[b].req)).value.result))
    && ((forall r :: !StandsAt(events, md5, r, b)) ==> GoesOn(events, md5, b))
  }

  /** The result stored at `r` stands when the request comes, and is not sixty seconds old. */
  ghost predicate StandsAt(events: seq<Event>, md5: string -> string, r: int, b: nat) {
    && r >= 0 && b < |events| && events[b].Begin?
    && var key := KeyOf(events[b].req);
      Stands(Stored(events, md5, key), Losing(events, md5, key), r, b) && events[b].now < events[r].now + KEPT
  }

  /** A call is done when its result has been stored, under its key if it has a transaction
      ID, and is then answered with that fresh result. */
  lemma RememberAnswers(events: seq<Event>, md5: string -> string, r: nat)
    requires r < |events| && events[r].Remember?
    ensures Run(events, md5).Some? ==> EndsFresh(events, md5, r)
  {
    if Run(events, md5).Some? {
      RunPrefix(events, md5, r + 1);
      RunNext(events, md5, r);
      var s := Run(events[..r], md5).value;
      FinishesWithResult(s, events[r]);
      AtEvent(events, md5, r, KeyOf(s.calls[events[r].call].req), s);
    }
  }

  ghost predicate EndsFresh(events: seq<Event>, md5: string -> string, r: nat) {
    && r < |events| && events[r].Remember? && Run(events[..r], md5).Some? && Run(events[..r + 1], md5).Some?
    && Finishes(Run(events[..r], md5).value, Run(events[..r + 1], md5).value, events[r].call)
    && var c := Run(events[..r], md5).value.calls[events[r].call];
      c.req.transaction != "" ==> StoredAt(events, md5, r, KeyOf(c.req)) == Some(Cached(c.result, events[r].now + KEPT))
  }

  ghost predicate Finishes(s: System, t: System, call: nat) {
    && call in s.calls && s.calls[call].Applied? && call !in t.calls
    && t.replies == s.replies + [Fresh(call, s.calls[call].req, s.calls[call].at, s.calls[call].result)]
  }

  lemma FinishesWithResult(s: System, e: Event)
    ensures e.Remember? && e.call in s.calls && s.calls[e.call].Applied? ==> Finishes(s, StepRemember(s, e.call, e.now, e.victim), e.call)
  {}

  // ----- what a result says

  /** Event `p` had the device store take this registration: of the device at the peer that
      asked, online until the lifetime asked for has passed, or offline if it asked for none. */
  ghost predicate SaysAt(events: seq<Event>, p: nat, call: nat, req: Request, result: Registration) {
    && p < |events| && events[p].Apply? && events[p].call == call && events[p].applied && result.at == events[p].now
    && result.device == req.device && result.peer == req.source && (result.online <==> req.expires != 0)
    && result.expires == if req.expires != 0 then events[p].now + req.expires * SECOND else 0
  }

  ghost predicate Says(events: seq<Event>, call: nat, req: Request, result: Registration) {
    exists p :: 0 <= p < |events| && SaysAt(events, p, call, req, result)
  }

  ghost predicate AllSay(events: seq<Event>, s: System) {
    && (forall c :: c in s.calls && s.calls[c].Applied? ==> Says(events, c, s.calls[c].req, s.calls[c].result))
    && (forall i :: 0 <= i < |s.replies| && s.replies[i].Fresh? ==> Says(events, s.replies[i].call, s.replies[i].req, s.replies[i].result))
  }

  lemma SaysMore(events: seq<Event>, e: Event, call: nat, req: Request, result: Registration)
    requires Says(events, call, req, result)
    ensures Says(events + [e], call, req, result)
  {
    var p :| 0 <= p < |events| && SaysAt(events, p, call, req, result);
    assert SaysAt(events + [e], p, call, req, result);
  }

  lemma AllSayMore(events: seq<Event>, e: Event, s: System)
    requires AllSay(events, s)
    ensures AllSay(events + [e], s)
  {
    forall c | c in s.calls && s.calls[c].Applied? ensures Says(events + [e], c, s.calls[c].req, s.calls[c].result) {
      SaysMore(events, e, c, s.calls[c].req, s.calls[c].result);
    }
    forall i | 0 <= i < |s.replies| && s.replies[i].Fresh?
      ensures Says(events + [e], s.replies[i].call, s.replies[i].req, s.replies[i].result)
    {
      SaysMore(events, e, s.replies[i].call, s.replies[i].req, s.replies[i].result);
    }
  }

  lemma BegunSays(events: seq<Event>, s: System, call: nat, req: Request, cache: map<string, Cached>, answer: Option<Response>)
    requires AllSay(events, s)
    ensures AllSay(events, Begun(s, call, req, cache, answer))
  {}

  lemma AuthenticatedSays(events: seq<Event>, s: System, call: nat, req: Request, e: N.Event, error: Option<Error>)
    requires AllSay(events, s)
    ensures AllSay(events, Authenticated(s, call, req, e, error))
  {}

  lemma AuthenticateSays(events: seq<Event>, s: System, e: Event, md5: string -> string)
    requires AllSay(events, s) && e.Authenticate? && e.call in s.calls
    ensures AllSay(events, StepAuthenticate(s, e.call, e.device, e.now, e.later, md5))
  {
    var req := s.calls[e.call].req;
    if Precheck(req, e.device).None? {
      var nonce := req.authorization.value.nonce;
      AuthenticatedSays(events, s, e.call, req, N.Consumed(nonce, e.now), Postcheck(req, e.device, N.AfterConsume(N.Run(s.log), nonce, e.now).1, e.later, md5));
    }
  }

  lemma ApplySays(events: seq<Event>, s: System, e: Event)
    requires AllSay(events + [e], s) && e.Apply? && e.call in s.calls && s.calls[e.call].Accepted?
    ensures AllSay(events + [e], StepApply(s, e.call, e.peer, e.applied, e.now))
  {
    if Applies(s.calls[e.call].req, e.peer, e.applied) {
      assert SaysAt(events + [e], |events|, e.call, s.calls[e.call].req, Registered(s.calls[e.call].req, e.now));
    }
  }

  lemma RememberSays(events: seq<Event>, s: System, e: Event)
    requires AllSay(events, s) && e.Remember? && e.call in s.calls && s.calls[e.call].Applied?
    ensures AllSay(events, StepRemember(s, e.call, e.now, e.victim))
  {}

  lemma StepSays(events: seq<Event>, s: System, e: Event, md5: string -> string)
    requires AllSay(events, s) && Enabled(s, e)
    ensures AllSay(events + [e], Step(s, e, md5))
  {
    AllSayMore(events, e, s);
    match e
    case Challenge(_, _, _) =>
    case Begin(call, req, now) => BegunSays(events + [e], s, call, req, AfterLookUp(s.cache, req, now), LookUp(s.cache, req, now));
    case Authenticate(_, _, _, _) => AuthenticateSays(events + [e], s, e, md5);
    case Apply(_, _, _, _) => ApplySays(events, s, e);
    case Remember(_, _, _) => RememberSays(events + [e], s, e);
  }

  /** Main result. Every fresh 200 says what the device store was told: the request's own device
      and peer, registered at the reading of that moment, online until the lifetime asked for
      has passed, and offline exactly if it asked for none. */
  lemma {:induction false} RepliesSay(events: seq<Event>, md5: string -> string)
    ensures Run(events, md5).Some? ==> AllSay(events, Run(events, md5).value)
  {
    if events != [] && Run(events, md5).Some? {
      var init, e := events[..|events| - 1], events[|events| - 1];
      LastStep(events, md5);
      RepliesSay(init, md5);
      StepSays(init, Run(init, md5).value, e, md5);
    }
  }

  lemma LastStep(events: seq<Event>, md5: string -> string)
    ensures events != [] && Run(events, md5).Some? ==> var init, e := events[..|events| - 1], events[|events| - 1];
      && init + [e] == events && Run(init, md5).Some? && Enabled(Run(init, md5).value, e)
      && Run(events, md5).value == Step(Run(init, md5).value, e, md5)
  {}
}
