/** The bounded store of one-time nonces. Times are integers, zero standing for the
    zero time. Go ranges over maps in no particular order, so which of several nonces
    with the same expiry is evicted is a choice, recorded here as the victim. */
module NonceStore {
  import opened Prelude

  datatype Transport = Udp | Tcp
  /** A peer, by the text of its address and port. */
  datatype Peer = Peer(address: string, transport: Transport)
  datatype Record = Record(device: string, realm: string, peer: Peer, uri: string, expires: int)
  datatype Store = Store(entries: map<string, Record>, used: map<string, int>)

  const MAX_NONCES := 4096

  function Keys(s: Store): set<string> { s.entries.Keys + s.used.Keys }

  function Size(s: Store): nat { |s.entries| + |s.used| }

  function Expiry(s: Store, nonce: string): int
    requires nonce in Keys(s)
  {
    if nonce in s.entries then s.entries[nonce].expires else s.used[nonce]
  }

  /** No nonce in either map expires before `nonce`. */
  ghost predicate Least(s: Store, nonce: string) {
    nonce in Keys(s) && forall other :: other in Keys(s) ==> Expiry(s, nonce) <= Expiry(s, other)
  }

  function Without(s: Store, nonce: string): Store {
    Store(s.entries - {nonce}, s.used - {nonce})
  }

  function AfterIssue(s: Store, nonce: string, record: Record, victim: string): Store {
    var room := if Size(s) >= MAX_NONCES then Without(s, victim) else s;
    Store(room.entries[nonce := record], room.used)
  }

  datatype Answer = Invalid | Replay | Taken(record: Record)

  function Pruned(s: Store, now: int): Store {
    Store(map n | n in s.entries && now < s.entries[n].expires :: s.entries[n],
          map n | n in s.used && now < s.used[n] :: s.used[n])
  }

  function AfterConsume(s: Store, nonce: string, now: int): (Store, Answer) {
    var p := Pruned(s, now);
    if nonce == "" || now == 0 then (s, Invalid)
    else if nonce in p.used then (p, Replay)
    else if nonce !in p.entries then (p, Invalid)
    else (Store(p.entries - {nonce}, p.used[nonce := p.entries[nonce].expires]), Taken(p.entries[nonce]))
  }

  /** No nonce is both open and used. */
  ghost predicate Apart(s: Store) {
    && (forall n :: n in s.entries ==> n !in s.used)
    && "" !in s.entries && "" !in s.used
  }

  ghost predicate Bounded(s: Store) { Apart(s) && Size(s) <= MAX_NONCES }

  // ----- runs

  datatype Event = Issued(nonce: string, record: Record, victim: string) | Consumed(nonce: string, now: int)

  function Step(s: Store, e: Event): Store {
    match e
    case Issued(nonce, record, victim) => AfterIssue(s, nonce, record, victim)
    case Consumed(nonce, now) => AfterConsume(s, nonce, now).0
  }

  function Run(events: seq<Event>): Store {
    if events == [] then Store(map[], map[]) else Step(Run(events[..|events| - 1]), events[|events| - 1])
  }

  /** Everything issued so far, by nonce. */
  function Ledger(events: seq<Event>): map<string, Record> {
    if events == [] then map[]
    else
      var rest, e := Ledger(events[..|events| - 1]), events[|events| - 1];
      if e.Issued? then rest[e.nonce := e.record] else rest
  }

  /** Random nonces do not repeat, and the victim of an eviction is one of least expiry. */
  ghost predicate Allowed(events: seq<Event>) {
    forall i {:trigger AllowedAt(events, i)} :: 0 <= i < |events| && events[i].Issued? ==> AllowedAt(events, i)
  }

  ghost predicate AllowedAt(events: seq<Event>, i: nat)
    requires i < |events| && events[i].Issued?
  {
    && events[i].nonce != ""
    && events[i].nonce !in Ledger(events[..i])
    && (Size(Run(events[..i])) >= MAX_NONCES ==> Least(Run(events[..i]), events[i].victim))
  }

  lemma AllowedPrefix(events: seq<Event>, n: nat)
    requires Allowed(events) && n <= |events|
    ensures Allowed(events[..n])
  {
    forall i | 0 <= i < n && events[..n][i].Issued? ensures AllowedAt(events[..n], i) {
      assert AllowedAt(events, i);
      assert events[..n][..i] == events[..i];
    }
  }

  /** What an event at place `i` of a run was answered. */
  function AnswerAt(events: seq<Event>, i: nat): Answer
    requires i < |events|
  {
    if events[i].Consumed? then AfterConsume(Run(events[..i]), events[i].nonce, events[i].now).1 else Invalid
  }

  lemma RemoveOne<K, V>(m: map<K, V>, k: K)
    ensures |m - {k}| == |m| - if k in m then 1 else 0
  {
    assert (m - {k}).Keys == m.Keys - {k};
    assert |(m - {k}).Keys| == |m.Keys| - if k in m then 1 else 0;
  }

  lemma AddOne<K, V>(m: map<K, V>, k: K, v: V)
    ensures |m[k := v]| == |m| + if k in m then 0 else 1
  {
    assert m[k := v].Keys == m.Keys + {k};
    assert |m[k := v].Keys| == |m.Keys| + if k in m then 0 else 1;
  }

  lemma PrunedSize(s: Store, now: int)
    ensures Size(Pruned(s, now)) <= Size(s)
  {
    Smaller(Pruned(s, now).entries.Keys, s.entries.Keys);
    Smaller(Pruned(s, now).used.Keys, s.used.Keys);
  }

  lemma {:induction false} Smaller<T>(a: set<T>, b: set<T>)
    requires a <= b
    ensures |a| <= |b|
    decreases a
  {
    if x :| x in a {
      Smaller(a - {x}, b - {x});
    }
  }

  /** An eviction takes exactly one nonce, from the two maps together. */
  lemma EvictionMakesRoom(s: Store, victim: string)
    requires Bounded(s) && victim in Keys(s)
    ensures Bounded(Without(s, victim)) && Size(Without(s, victim)) == Size(s) - 1
    ensures forall n :: n in Keys(Without(s, victim)) <==> n in Keys(s) && n != victim
  {
    RemoveOne(s.entries, victim);
    RemoveOne(s.used, victim);
    assert victim in s.entries <==> victim !in s.used;
  }

  lemma IssueBounded(s: Store, nonce: string, record: Record, victim: string)
    requires Bounded(s) && nonce != "" && nonce !in s.used && (Size(s) >= MAX_NONCES ==> victim in Keys(s))
    ensures Bounded(AfterIssue(s, nonce, record, victim))
  {
    if Size(s) >= MAX_NONCES { EvictionMakesRoom(s, victim); }
    AddOne((if Size(s) >= MAX_NONCES then Without(s, victim) else s).entries, nonce, record);
  }

  lemma ConsumeApart(s: Store, nonce: string, now: int)
    requires Apart(s)
    ensures Apart(AfterConsume(s, nonce, now).0)
  {}

  lemma ConsumeSize(s: Store, nonce: string, now: int)
    ensures Size(AfterConsume(s, nonce, now).0) <= Size(s)
  {
    var p := Pruned(s, now);
    PrunedSize(s, now);
    if nonce in p.entries {
      RemoveOne(p.entries, nonce);
      AddOne(p.used, nonce, p.entries[nonce].expires);
    }
  }

  lemma {:induction false} LedgerMeaning(events: seq<Event>, nonce: string) returns (i: nat)
    requires nonce in Ledger(events)
    ensures i < |events| && events[i].Issued? && events[i].nonce == nonce && events[i].record == Ledger(events)[nonce]
  {
    var n := |events| - 1;
    if events[n].Issued? && events[n].nonce == nonce {
      i := n;
    } else {
      i := LedgerMeaning(events[..n], nonce);
    }
  }

  /** A nonce in the store was issued, and an open one has the record it was issued with. */
  ghost predicate Known(s: Store, ledger: map<string, Record>) {
    && (forall n :: n in s.entries ==> n in ledger && ledger[n] == s.entries[n])
    && (forall n :: n in s.used ==> n in ledger)
  }

  lemma ConsumeKnown(s: Store, ledger: map<string, Record>, nonce: string, now: int)
    requires Known(s, ledger)
    ensures Known(AfterConsume(s, nonce, now).0, ledger)
  {}

  lemma IssueKnown(s: Store, ledger: map<string, Record>, nonce: string, record: Record, victim: string)
    requires Known(s, ledger) && nonce !in ledger
    ensures Known(AfterIssue(s, nonce, record, victim), ledger[nonce := record])
  {}

  /** Main result. Over every run no nonce is both open and used, the two maps hold at
      most 4096 nonces together, and they hold only what was issued, as it was issued. */
  lemma {:induction false} StoreStaysBounded(events: seq<Event>)
    requires Allowed(events)
    ensures Bounded(Run(events)) && Known(Run(events), Ledger(events))
  {
    if events != [] {
      var n := |events| - 1;
      var s, e, ledger := Run(events[..n]), events[n], Ledger(events[..n]);
      AllowedPrefix(events, n);
      StoreStaysBounded(events[..n]);
      match e
      case Issued(nonce, record, victim) =>
        assert AllowedAt(events, n);
        IssueBounded(s, nonce, record, victim);
        IssueKnown(s, ledger, nonce, record, victim);
      case Consumed(nonce, now) =>
        ConsumeApart(s, nonce, now);
        ConsumeSize(s, nonce, now);
        ConsumeKnown(s, ledger, nonce, now);
    }
  }

  /** Main result. A nonce is handed out only as it was issued and only before it expires. */
  lemma TakenAsIssued(events: seq<Event>, j: nat) returns (i: nat)
    requires Allowed(events) && j < |events| && AnswerAt(events, j).Taken?
    ensures i < j && events[i].Issued? && events[i].nonce == events[j].nonce && events[i].record == AnswerAt(events, j).record
    ensures events[j].now < events[i].record.expires
  {
    AllowedPrefix(events, j);
    StoreStaysBounded(events[..j]);
    i := LedgerMeaning(events[..j], events[j].nonce);
  }

  /** A nonce that was issued and has left the open entries is not there after the next event. */
  lemma GoneOne(events: seq<Event>, j: nat, nonce: string)
    requires Allowed(events) && j < |events|
    requires nonce in Ledger(events[..j]) && nonce !in Run(events[..j]).entries
    ensures nonce in Ledger(events[..j + 1]) && nonce !in Run(events[..j + 1]).entries
  {
    RunNext(events, j);
    assert events[j].Issued? ==> AllowedAt(events, j);
    StepOpensNothing(Run(events[..j]), events[j], nonce);
  }

  /** A nonce that was issued before place `i` and has left the open entries stays out. */
  lemma {:induction false} GoneForGood(events: seq<Event>, i: nat, nonce: string, j: nat)
    requires Allowed(events) && i <= j <= |events|
    requires nonce in Ledger(events[..i]) && nonce !in Run(events[..i]).entries
    ensures nonce in Ledger(events[..j]) && nonce !in Run(events[..j]).entries
    decreases j - i
  {
    if i < j {
      GoneOne(events, i, nonce);
      GoneForGood(events, i + 1, nonce, j);
    }
  }

  lemma RunNext(events: seq<Event>, i: nat)
    requires i < |events|
    ensures Run(events[..i + 1]) == Step(Run(events[..i]), events[i])
    ensures forall n :: n in Ledger(events[..i]) ==> n in Ledger(events[..i + 1])
  {
    assert events[..i + 1][..i] == events[..i];
  }

  lemma StepOpensNothing(s: Store, e: Event, nonce: string)
    ensures nonce !in s.entries && (e.Issued? ==> e.nonce != nonce) ==> nonce !in Step(s, e).entries
  {}

  /** Main result. Every nonce is handed out at most once, whatever the clock does. */
  lemma TakenOnce(events: seq<Event>, i: nat, j: nat)
    requires Allowed(events) && i < j < |events|
    requires AnswerAt(events, i).Taken? && AnswerAt(events, j).Taken?
    ensures events[i].nonce != events[j].nonce
  {
    var nonce := events[i].nonce;
    AllowedPrefix(events, i);
    StoreStaysBounded(events[..i]);
    RunNext(events, i);
    TakenCloses(Run(events[..i]), nonce, events[i].now);
    GoneForGood(events, i + 1, nonce, j);
  }

  lemma TakenCloses(s: Store, nonce: string, now: int)
    ensures AfterConsume(s, nonce, now).1.Taken? ==> nonce in s.entries && nonce !in AfterConsume(s, nonce, now).0.entries
  {}

  /** What takes an open nonce out of the entries: being handed out, a look at the store at
      a clock reading past its expiry, or an eviction. */
  ghost predicate Ends(s: Store, e: Event, nonce: string, expires: int) {
    match e
    case Issued(_, _, victim) => Size(s) >= MAX_NONCES && victim == nonce
    case Consumed(n, now) => n != "" && now != 0 && (n == nonce || expires <= now)
  }

  ghost predicate EndsAt(events: seq<Event>, k: nat, nonce: string, expires: int) {
    k < |events| && Ends(Run(events[..k]), events[k], nonce, expires)
  }

  ghost predicate EndedBy(events: seq<Event>, i: nat, j: nat, nonce: string, expires: int) {
    exists k :: i < k < j && EndsAt(events, k, nonce, expires)
  }

  lemma EndsOne(s: Store, e: Event, nonce: string)
    requires nonce in s.entries && nonce !in s.used && (e.Issued? ==> e.nonce != nonce)
    ensures var t := Step(s, e); var r := s.entries[nonce];
      && (nonce in t.entries <==> !Ends(s, e, nonce, r.expires))
      && (nonce in t.entries ==> t.entries[nonce] == r)
  {}

  /** Nothing strictly between `i` and `n` ends it, counted from the last event back. */
  predicate Clear(ends: nat -> bool, i: nat, n: nat) {
    n <= i + 1 || (Clear(ends, i, n - 1) && !ends(n - 1))
  }

  lemma {:induction false} ClearIff(ends: nat -> bool, i: nat, n: nat)
    ensures Clear(ends, i, n) <==> forall k: nat :: i < k < n ==> !ends(k)
  {
    if n > i + 1 { ClearIff(ends, i, n - 1); }
  }

  /** What holds after `i`, and is carried along by every event, holds at `j`. */
  lemma {:induction false} CarriedAlong(holds: (nat, bool) -> bool, ends: nat -> bool, i: nat, j: nat)
    requires i < j && holds(i + 1, true)
    requires forall n: nat, open: bool :: i < n < j && holds(n, open) ==> holds(n + 1, open && !ends(n))
    ensures holds(j, Clear(ends, i, j))
  {
    if i + 1 < j {
      CarriedAlong(holds, ends, i, j - 1);
      assert holds(j - 1 + 1, Clear(ends, i, j - 1) && !ends(j - 1));
    }
  }

  ghost function Ender(events: seq<Event>, nonce: string, expires: int): nat -> bool {
    (k: nat) => EndsAt(events, k, nonce, expires)
  }

  /** The store has the nonce, as it was issued, exactly if `open` says so. */
  predicate Shows(s: Store, ledger: map<string, Record>, nonce: string, record: Record, open: bool) {
    nonce in ledger && (nonce in s.entries <==> open) && (open ==> s.entries[nonce] == record)
  }

  lemma ShowsOne(s: Store, ledger: map<string, Record>, e: Event, nonce: string, record: Record, open: bool)
    requires Shows(s, ledger, nonce, record, open) && Bounded(s) && (e.Issued? ==> e.nonce !in ledger)
    ensures nonce in Step(s, e).entries <==> open && !Ends(s, e, nonce, record.expires)
    ensures nonce in Step(s, e).entries ==> Step(s, e).entries[nonce] == record
  {
    if open { EndsOne(s, e, nonce); } else { StepOpensNothing(s, e, nonce); }
  }

  lemma ShowsNext(events: seq<Event>, n: nat, nonce: string, record: Record, open: bool)
    requires Allowed(events) && n < |events| && Shows(Run(events[..n]), Ledger(events[..n]), nonce, record, open)
    ensures Shows(Run(events[..n + 1]), Ledger(events[..n + 1]), nonce, record, open && !EndsAt(events, n, nonce, record.expires))
  {
    AllowedPrefix(events, n);
    StoreStaysBounded(events[..n]);
    assert events[n].Issued? ==> AllowedAt(events, n);
    RunNext(events, n);
    ShowsOne(Run(events[..n]), Ledger(events[..n]), events[n], nonce, record, open);
  }

  lemma JustIssued(events: seq<Event>, i: nat)
    requires i < |events| && events[i].Issued?
    ensures Shows(Run(events[..i + 1]), Ledger(events[..i + 1]), events[i].nonce, events[i].record, true)
  {
    RunNext(events, i);
    LedgerNext(events, i);
  }

  ghost predicate ShowsAt(events: seq<Event>, n: nat, nonce: string, record: Record, open: bool) {
    n <= |events| && Shows(Run(events[..n]), Ledger(events[..n]), nonce, record, open)
  }

  lemma ShowsAlong(events: seq<Event>, i: nat, j: nat)
    requires Allowed(events) && i < j <= |events| && events[i].Issued?
    ensures ShowsAt(events, j, events[i].nonce, events[i].record, Clear(Ender(events, events[i].nonce, events[i].record.expires), i, j))
  {
    var nonce, record := events[i].nonce, events[i].record;
    var ends := Ender(events, nonce, record.expires);
    var holds := (n: nat, open: bool) => ShowsAt(events, n, nonce, record, open);
    JustIssued(events, i);
    forall n: nat, open: bool | i < n < j && holds(n, open) ensures holds(n + 1, open && !ends(n)) {
      ShowsNext(events, n, nonce, record, open);
    }
    CarriedAlong(holds, ends, i, j);
  }

  lemma ClearIsNotEnded(events: seq<Event>, i: nat, j: nat, nonce: string, expires: int)
    requires j <= |events|
    ensures Clear(Ender(events, nonce, expires), i, j) <==> !EndedBy(events, i, j, nonce, expires)
  {
    ClearIff(Ender(events, nonce, expires), i, j);
    assert forall k: nat :: i < k < j ==> (Ender(events, nonce, expires)(k) <==> EndsAt(events, k, nonce, expires));
  }

  /** An issued nonce is open, with its record, exactly until something ends it. */
  lemma OpenUntilEnded(events: seq<Event>, i: nat, j: nat)
    requires Allowed(events) && i < j <= |events| && events[i].Issued?
    ensures var nonce, record := events[i].nonce, events[i].record; var s := Run(events[..j]);
      && (nonce in s.entries <==> !EndedBy(events, i, j, nonce, record.expires))
      && (nonce in s.entries ==> s.entries[nonce] == record)
  {
    ClearIsNotEnded(events, i, j, events[i].nonce, events[i].record.expires);
    ShowsAlong(events, i, j);
  }

  lemma LedgerNext(events: seq<Event>, i: nat)
    requires i < |events|
    ensures events[i].Issued? ==> events[i].nonce in Ledger(events[..i + 1])
  {
    assert events[..i + 1][..i] == events[..i];
  }

  /** Main result. Asking for an issued nonce hands it out if and only if it has not
      expired and nothing ended it since it was issued. */
  lemma TakenIffStillOpen(events: seq<Event>, i: nat, j: nat)
    requires Allowed(events) && i < j < |events| && events[i].Issued?
    requires events[j].Consumed? && events[j].nonce == events[i].nonce && events[j].now != 0
    ensures AnswerAt(events, j).Taken? <==>
      events[j].now < events[i].record.expires && !EndedBy(events, i, j, events[i].nonce, events[i].record.expires)
  {
    assert AllowedAt(events, i);
    AllowedPrefix(events, j);
    StoreStaysBounded(events[..j]);
    OpenUntilEnded(events, i, j);
  }

  // ----- the memory of nonces handed out

  /** What makes the store forget that the nonce was handed out: a look at the store at a
      clock reading past its expiry, or an eviction. */
  ghost predicate Forgets(s: Store, e: Event, nonce: string, expires: int) {
    match e
    case Issued(_, _, victim) => Size(s) >= MAX_NONCES && victim == nonce
    case Consumed(n, now) => n != "" && now != 0 && expires <= now
  }

  ghost predicate ForgetsAt(events: seq<Event>, k: nat, nonce: string, expires: int) {
    k < |events| && Forgets(Run(events[..k]), events[k], nonce, expires)
  }

  ghost predicate Forgotten(events: seq<Event>, i: nat, j: nat, nonce: string, expires: int) {
    exists k :: i < k < j && ForgetsAt(events, k, nonce, expires)
  }

  /** The store remembers the nonce as handed out exactly if `known` says so. */
  predicate Knows(s: Store, ledger: map<string, Record>, nonce: string, expires: int, known: bool) {
    nonce in ledger && nonce !in s.entries && (nonce in s.used <==> known) && (known ==> s.used[nonce] == expires)
  }

  lemma KnowsOne(s: Store, ledger: map<string, Record>, e: Event, nonce: string, expires: int, known: bool)
    requires Knows(s, ledger, nonce, expires, known) && (e.Issued? ==> e.nonce !in ledger)
    ensures var t := Step(s, e); nonce !in t.entries && (nonce in t.used <==> known && !Forgets(s, e, nonce, expires))
    ensures nonce in Step(s, e).used ==> Step(s, e).used[nonce] == expires
  {
    match e
    case Issued(n, record, victim) => IssueKeepsUsed(s, n, record, victim, nonce);
    case Consumed(n, now) => ConsumeKeepsUsed(s, n, now, nonce);
  }

  lemma IssueKeepsUsed(s: Store, n: string, record: Record, victim: string, nonce: string)
    ensures var t := AfterIssue(s, n, record, victim);
      && (nonce in t.used <==> nonce in s.used && !(Size(s) >= MAX_NONCES && victim == nonce))
      && (nonce in t.used ==> t.used[nonce] == s.used[nonce])
      && (n != nonce && nonce !in s.entries ==> nonce !in t.entries)
  {}

  lemma ConsumeKeepsUsed(s: Store, n: string, now: int, nonce: string)
    ensures nonce !in s.entries ==> var t := AfterConsume(s, n, now).0;
      && nonce !in t.entries
      && (nonce in t.used <==> nonce in s.used && !(n != "" && now != 0 && s.used[nonce] <= now))
      && (nonce in t.used ==> t.used[nonce] == s.used[nonce])
  {}

  ghost predicate KnowsAt(events: seq<Event>, n: nat, nonce: string, expires: int, known: bool) {
    n <= |events| && Knows(Run(events[..n]), Ledger(events[..n]), nonce, expires, known)
  }

  lemma KnowsNext(events: seq<Event>, n: nat, nonce: string, expires: int, known: bool)
    requires Allowed(events) && n < |events| && KnowsAt(events, n, nonce, expires, known)
    ensures KnowsAt(events, n + 1, nonce, expires, known && !ForgetsAt(events, n, nonce, expires))
  {
    assert events[n].Issued? ==> AllowedAt(events, n);
    RunNext(events, n);
    KnowsOne(Run(events[..n]), Ledger(events[..n]), events[n], nonce, expires, known);
  }

  lemma TakenIsKnown(s: Store, ledger: map<string, Record>, nonce: string, now: int)
    requires AfterConsume(s, nonce, now).1.Taken? && nonce in ledger
    ensures Knows(AfterConsume(s, nonce, now).0, ledger, nonce, AfterConsume(s, nonce, now).1.record.expires, true)
  {}

  lemma JustTaken(events: seq<Event>, i: nat)
    requires Allowed(events) && i < |events| && AnswerAt(events, i).Taken?
    ensures KnowsAt(events, i + 1, events[i].nonce, AnswerAt(events, i).record.expires, true)
  {
    AllowedPrefix(events, i);
    StoreStaysBounded(events[..i]);
    RunNext(events, i);
    TakenIsKnown(Run(events[..i]), Ledger(events[..i + 1]), events[i].nonce, events[i].now);
  }

  ghost function Forgetter(events: seq<Event>, nonce: string, expires: int): nat -> bool {
    (k: nat) => ForgetsAt(events, k, nonce, expires)
  }

  lemma KnowsAlong(events: seq<Event>, i: nat, j: nat)
    requires Allowed(events) && i < j <= |events| && AnswerAt(events, i).Taken?
    ensures var nonce, expires := events[i].nonce, AnswerAt(events, i).record.expires;
      KnowsAt(events, j, nonce, expires, Clear(Forgetter(events, nonce, expires), i, j))
  {
    var nonce, expires := events[i].nonce, AnswerAt(events, i).record.expires;
    JustTaken(events, i);
    KnowsCarries(events, i, j, nonce, expires);
    CarriedAlong(Knowing(events, nonce, expires), Forgetter(events, nonce, expires), i, j);
  }

  ghost function Knowing(events: seq<Event>, nonce: string, expires: int): (nat, bool) -> bool {
    (n: nat, known: bool) => KnowsAt(events, n, nonce, expires, known)
  }

  lemma KnowsCarries(events: seq<Event>, i: nat, j: nat, nonce: string, expires: int)
    requires Allowed(events) && j <= |events|
    ensures var holds, forgets := Knowing(events, nonce, expires), Forgetter(events, nonce, expires);
      forall n: nat, known: bool :: i < n < j && holds(n, known) ==> holds(n + 1, known && !forgets(n))
  {
    var holds, forgets := Knowing(events, nonce, expires), Forgetter(events, nonce, expires);
    forall n: nat, known: bool | i < n < j && holds(n, known) ensures holds(n + 1, known && !forgets(n)) {
      KnowsNext(events, n, nonce, expires, known);
    }
  }

  lemma ClearIsNotForgotten(events: seq<Event>, i: nat, j: nat, nonce: string, expires: int)
    requires j <= |events|
    ensures Clear(Forgetter(events, nonce, expires), i, j) <==> !Forgotten(events, i, j, nonce, expires)
  {
    ClearIff(Forgetter(events, nonce, expires), i, j);
    assert forall k: nat :: i < k < j ==> (Forgetter(events, nonce, expires)(k) <==> ForgetsAt(events, k, nonce, expires));
  }

  lemma AnswerToKnown(s: Store, nonce: string, expires: int, known: bool, now: int)
    requires nonce != "" && now != 0 && nonce !in s.entries && (nonce in s.used <==> known) && (known ==> s.used[nonce] == expires)
    ensures AfterConsume(s, nonce, now).1 == if known && now < expires then Replay else Invalid
  {}

  /** Main result. Asking again for a nonce that was handed out is answered as a replay if and only
      if it has not expired and the store has not forgotten it since, and as unknown otherwise. */
  lemma ReplayIffRemembered(events: seq<Event>, i: nat, j: nat)
    requires Allowed(events) && i < j < |events| && AnswerAt(events, i).Taken?
    requires events[j].Consumed? && events[j].nonce == events[i].nonce && events[j].now != 0
    ensures var nonce, expires := events[i].nonce, AnswerAt(events, i).record.expires;
      AnswerAt(events, j) == if events[j].now < expires && !Forgotten(events, i, j, nonce, expires) then Replay else Invalid
  {
    var nonce, expires := events[i].nonce, AnswerAt(events, i).record.expires;
    KnowsAlong(events, i, j);
    ClearIsNotForgotten(events, i, j, nonce, expires);
    AnswerToKnown(Run(events[..j]), nonce, expires, Clear(Forgetter(events, nonce, expires), i, j), events[j].now);
  }

  // ----- the store

  class MemoryNonceStore {
    var entries: map<string, Record>
    var used: map<string, int>

    ghost function View(): Store reads this { Store(entries, used) }

    constructor ()
      ensures View() == Run([])
    {
      entries, used := map[], map[];
    }

    /** The scan for the nonce to evict, over both maps. */
    method Oldest() returns (oldest: string)
      requires Bounded(View()) && Size(View()) > 0
      ensures Least(View(), oldest)
    {
      oldest := "";
      var oldestExpiry := 0;
      var todo := entries.Keys;
      while todo != {}
        invariant todo <= entries.Keys
        invariant oldest == "" ==> todo == entries.Keys
        invariant oldest != "" ==> oldest in entries && oldestExpiry == entries[oldest].expires
        invariant oldest != "" ==> forall n :: n in entries && n !in todo ==> oldestExpiry <= entries[n].expires
        decreases todo
      {
        var value :| value in todo;
        if oldest == "" || entries[value].expires < oldestExpiry {
          oldest, oldestExpiry := value, entries[value].expires;
        }
        todo := todo - {value};
      }
      todo := used.Keys;
      while todo != {}
        invariant todo <= used.Keys
        invariant oldest == "" ==> todo == used.Keys && entries.Keys == {}
        invariant oldest != "" ==> oldest in Keys(View()) && oldestExpiry == Expiry(View(), oldest)
        invariant oldest != "" ==> forall n :: n in entries ==> oldestExpiry <= entries[n].expires
        invariant oldest != "" ==> forall n :: n in used && n !in todo ==> oldestExpiry <= used[n]
        decreases todo
      {
        var value :| value in todo;
        if oldest == "" || used[value] < oldestExpiry {
          oldest, oldestExpiry := value, used[value];
        }
        todo := todo - {value};
      }
    }

    /** Issue; `nonce` is what the random source yields, None if it fails. */
    method Issue(record: Record, peerValid: bool, nonce: Option<string>) returns (issued: bool, ghost victim: string)
      requires Bounded(View()) && (nonce.Some? ==> nonce.value != "" && nonce.value !in Keys(View()))
      modifies this
      ensures Bounded(View()) && issued == (peerValid && record.expires != 0 && nonce.Some?)
      ensures !issued ==> View() == old(View())
      ensures issued ==> View() == AfterIssue(old(View()), nonce.value, record, victim)
      ensures issued && Size(old(View())) >= MAX_NONCES ==> Least(old(View()), victim)
    {
      issued, victim := false, "";
      if !peerValid || record.expires == 0 { return; }
      if nonce.None? { return; }
      while |entries| + |used| >= MAX_NONCES
        invariant Bounded(View())
        invariant if victim == "" then View() == old(View()) else View() == Without(old(View()), victim) && Size(View()) < MAX_NONCES <= Size(old(View())) && Least(old(View()), victim)
        decreases |entries| + |used|
      {
        var oldest := Oldest();
        EvictionMakesRoom(View(), oldest);
        victim := oldest;
        entries := entries - {oldest};
        used := used - {oldest};
      }
      IssueBounded(old(View()), nonce.value, record, victim);
      entries := entries[nonce.value := record];
      issued := true;
    }

    method Consume(nonce: string, now: int) returns (r: Answer)
      modifies this
      ensures (View(), r) == AfterConsume(old(View()), nonce, now)
    {
      if nonce == "" || now == 0 { return Invalid; }
      var todo := entries.Keys;
      while todo != {}
        invariant used == old(used) && todo <= old(entries).Keys
        invariant entries == map n | n in old(entries) && (n in todo || now < old(entries)[n].expires) :: old(entries)[n]
        decreases todo
      {
        var value :| value in todo;
        if entries[value].expires <= now { entries := entries - {value}; }
        todo := todo - {value};
      }
      todo := used.Keys;
      while todo != {}
        invariant entries == Pruned(old(View()), now).entries && todo <= old(used).Keys
        invariant used == map n | n in old(used) && (n in todo || now < old(used)[n]) :: old(used)[n]
        decreases todo
      {
        var value :| value in todo;
        if used[value] <= now { used := used - {value}; }
        todo := todo - {value};
      }
      assert View() == Pruned(old(View()), now);
      if nonce in used { return Replay; }
      if nonce !in entries { return Invalid; }
      var record := entries[nonce];
      entries := entries - {nonce};
      used := used[nonce := record.expires];
      r := Taken(record);
    }
  }
}
