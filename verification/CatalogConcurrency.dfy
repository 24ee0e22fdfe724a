/** Any number of goroutines calling Start, AcceptPage and Expire on one
    coordinator. A goroutine advances by one mutex section or by one store call
    returning, so every interleaving of the real program is a run of this machine. */
module CatalogConcurrency {
  import opened Prelude
  import opened CatalogModel

  datatype Phase = Calling | Succeeded | Failed

  /** Where a goroutine is while it holds no lock. */
  datatype Thread =
    | StartRefreshing(refresh: Refresh, next: Option<Page>, now: Time)
    | Installing(got: Refresh, next: Option<Page>, now: Time)
    | Accepting(page: Page, now: Time)
    | Committing(k: Key, id: nat, refresh: Refresh, items: map<string, Item>, phase: Phase)
    | Staling(refresh: Refresh, phase: Phase)

  /** `replaced` records the ReplaceCatalog calls that succeeded, oldest first. */
  datatype System = System(t: Tables, threads: map<nat, Thread>, nextID: nat, replaced: seq<(Key, map<string, Item>)>)

  const INITIAL := System(EMPTY, map[], 0, [])
  const REFRESH_TIMEOUT: Time := 10_000_000_000

  datatype Event =
    | CallStart(thread: nat, refresh: Refresh, now: Time)
    | CallPage(thread: nat, page: Page, now: Time)
    | CallExpire(thread: nat, k: Key, now: Time)
    | StartRefreshReturns(thread: nat, ok: bool, deadline: Time)
    | ReplaceReturns(thread: nat, ok: bool)
    | MarkStaleReturns(thread: nat, ok: bool)
    | Section(thread: nat)

  function Enter(s: System, me: nat, refresh: Refresh, next: Option<Page>, now: Time): System {
    match LookUp(s.t, refresh)
    case Known(_) => if next.Some? then s.(threads := s.threads[me := Accepting(next.value, now)]) else s
    case Rejected(_) => s
    case CallStore => s.(threads := s.threads[me := StartRefreshing(refresh, next, now)])
  }

  /** One step; an event that does not fit the goroutine's position does nothing. */
  function Step(s: System, e: Event): System {
    var me := e.thread;
    match e
    case CallStart(_, refresh, now) =>
      if me in s.threads then s else Enter(s, me, refresh, None, now)
    case CallPage(_, page, now) =>
      if me in s.threads || !ValidPage(page) then s
      else Enter(s, me, AskedBy(page, now), Some(page), now)
    case CallExpire(_, k, now) =>
      if me in s.threads then s
      else
        var (t, r) := Expire(s.t, k, now);
        if r.ExpireStale? then s.(t := t, threads := s.threads[me := Staling(r.refresh, Calling)]) else s
    case StartRefreshReturns(_, ok, deadline) =>
      if me !in s.threads || !s.threads[me].StartRefreshing? then s
      else if !ok then s.(threads := s.threads - {me})
      else
        var pc := s.threads[me];
        s.(threads := s.threads[me := Installing(pc.refresh.(deadline := deadline), pc.next, pc.now)])
    case ReplaceReturns(_, ok) =>
      if me !in s.threads || !s.threads[me].Committing? || s.threads[me].phase != Calling then s
      else
        var pc := s.threads[me];
        var threads := s.threads[me := Committing(pc.k, pc.id, pc.refresh, pc.items, if ok then Succeeded else Failed)];
        s.(threads := threads, replaced := if ok then s.replaced + [(pc.k, pc.items)] else s.replaced)
    case MarkStaleReturns(_, ok) =>
      if me !in s.threads || !s.threads[me].Staling? || s.threads[me].phase != Calling then s
      else s.(threads := s.threads[me := Staling(s.threads[me].refresh, if ok then Succeeded else Failed)])
    case Section(_) =>
      if me !in s.threads then s else RunSection(s, me)
  }

  function RunSection(s: System, me: nat): System
    requires me in s.threads
  {
    match s.threads[me]
    case StartRefreshing(_, _, _) => s
    case Installing(got, next, now) =>
      var (t, _) := Install(s.t, got, s.nextID);
      s.(t := t, nextID := if t == s.t then s.nextID else s.nextID + 1,
         threads := if next.Some? then s.threads[me := Accepting(next.value, now)] else s.threads - {me})
    case Accepting(page, now) =>
      var (t, r) := Accept(s.t, page, now);
      var k := CatalogKey(page.device, page.sn);
      s.(t := t, threads :=
         match r
         case Answer(_) => s.threads - {me}
         case Refuse(_) => s.threads - {me}
         case BeginStale(refresh) => s.threads[me := Staling(refresh, Calling)]
         case BeginCommit(id, refresh, items, _) => s.threads[me := Committing(k, id, refresh, items, Calling)])
    case Committing(k, id, refresh, _, phase) =>
      (match phase
       case Calling => s
       case Failed => s.(t := CommitFailed(s.t, k, id), threads := s.threads - {me})
       case Succeeded => s.(t := CommitDone(s.t, k, id, refresh).0, threads := s.threads - {me}))
    case Staling(refresh, phase) =>
      (match phase
       case Calling => s
       case Failed => s.(t := StaleFailed(s.t, refresh), threads := s.threads - {me})
       case Succeeded => s.(t := StaleDone(s.t, refresh), threads := s.threads - {me}))
  }

  function Run(s: System, events: seq<Event>): System {
    if events == [] then s else Step(Run(s, events[..|events| - 1]), events[|events| - 1])
  }

  /** How the store calls of one AcceptPage turn out; an error is the one the caller gets. */
  datatype StoreAnswers = StoreAnswers(startError: Option<Error>, deadline: Time, replaceError: Option<Error>, markError: Option<Error>)

  /** A whole AcceptPage by a goroutine nobody interrupts. */
  function AcceptPageAlone(s: System, me: nat, page: Page, now: Time, io: StoreAnswers): System {
    var s1 := Step(s, CallPage(me, page, now));
    var s2 := Step(s1, StartRefreshReturns(me, io.startError.None?, io.deadline));
    var s3 := Step(Step(s2, Section(me)), Section(me));
    var s4 := Step(s3, ReplaceReturns(me, io.replaceError.None?));
    var s5 := Step(s4, MarkStaleReturns(me, io.markError.None?));
    Step(s5, Section(me))
  }

  datatype Response = Page(result: PageResult) | Fails(error: Error)

  function AskedBy(page: Page, now: Time): Refresh {
    Refresh(page.device, page.sn, page.sumNum, now + REFRESH_TIMEOUT)
  }

  /** The tables after the start that opens such a call, or why it ends there. */
  function AfterStart(t: Tables, id: nat, asked: Refresh, io: StoreAnswers): (Tables, Option<Error>) {
    match LookUp(t, asked)
    case Known(_) => (t, None)
    case Rejected(error) => (t, Some(error))
    case CallStore => if io.startError.Some? then (t, io.startError) else (Install(t, asked.(deadline := io.deadline), id).0, None)
  }

  /** What that call returns. */
  function AcceptPageAnswer(t: Tables, id: nat, page: Page, now: Time, io: StoreAnswers): Response {
    if !ValidPage(page) then Fails(ErrInvalid)
    else
      var (ready, error) := AfterStart(t, id, AskedBy(page, now), io);
      if error.Some? then Fails(error.value)
      else
        Outcome(Accept(ready, page, now).1, io)
  }

  function Outcome(accepted: Accepted, io: StoreAnswers): Response {
    match accepted
    case Answer(result) => Response.Page(result)
    case Refuse(e) => Fails(e)
    case BeginStale(_) => Fails(if io.markError.Some? then io.markError.value else ErrDeadline)
    case BeginCommit(_, refresh, _, duplicate) =>
      if io.replaceError.Some? then Fails(io.replaceError.value) else Response.Page(PageResult(refresh, true, duplicate))
  }

  /** The tables once the store call that follows the main section has been settled. */
  function Settle(t: Tables, k: Key, accepted: Accepted, io: StoreAnswers): Tables {
    match accepted
    case Answer(_) => t
    case Refuse(_) => t
    case BeginStale(refresh) => if io.markError.Some? then StaleFailed(t, refresh) else StaleDone(t, refresh)
    case BeginCommit(id, refresh, _, _) =>
      if io.replaceError.Some? then CommitFailed(t, k, id) else CommitDone(t, k, id, refresh).0
  }

  function AfterAcceptPage(t: Tables, id: nat, page: Page, now: Time, io: StoreAnswers): Tables {
    if !ValidPage(page) then t
    else
      var (ready, error) := AfterStart(t, id, AskedBy(page, now), io);
      if error.Some? then t
      else var (t', r) := Accept(ready, page, now); Settle(t', CatalogKey(page.device, page.sn), r, io)
  }

  // ----- the invariant that links goroutines to flags

  ghost predicate CommitsFor(s: System, me: nat, k: Key) {
    me in s.threads && s.threads[me].Committing? && s.threads[me].k == k
  }

  ghost predicate StalesFor(s: System, me: nat, k: Key) {
    me in s.threads && s.threads[me].Staling? && s.threads[me].refresh.Key() == k
  }

  ghost predicate Replaced(s: System, k: Key) {
    exists i :: 0 <= i < |s.replaced| && s.replaced[i].0 == k
  }

  /** What holds for one key: each flag is set exactly while one goroutine is
      inside the store call it stands for, that goroutine holds the pending
      object as it is, and a key's catalog is replaced at most once. */
  ghost predicate KeyOk(s: System, k: Key) {
    && (k in s.t.pending ==>
          && s.t.pending[k].refresh.Key() == k && s.t.pending[k].id < s.nextID && Keyed(s.t.pending[k].items)
          && !(s.t.pending[k].staling && s.t.pending[k].committing)
          && k !in s.t.completed
          && (s.t.pending[k].committing ==> exists me :: CommitsFor(s, me, k))
          && (s.t.pending[k].staling ==> exists me :: StalesFor(s, me, k)))
    && (forall me :: CommitsFor(s, me, k) ==> CommitHolds(s, s.threads[me]))
    && (forall me :: StalesFor(s, me, k) ==>
          k in s.t.pending && s.t.pending[k].staling && s.t.pending[k].refresh == s.threads[me].refresh)
    && (forall a, b :: CommitsFor(s, a, k) && CommitsFor(s, b, k) ==> a == b)
    && (forall a, b :: StalesFor(s, a, k) && StalesFor(s, b, k) ==> a == b)
    && (forall i, j :: 0 <= i < j < |s.replaced| && s.replaced[i].0 == k ==> s.replaced[j].0 != k)
    && (k in s.t.completed ==> exists i ::
          0 <= i < |s.replaced| && s.replaced[i].0 == k && |s.replaced[i].1| == s.t.completed[k].expected)
    && (Replaced(s, k) && k !in s.t.completed ==> exists me :: CommitsFor(s, me, k))
  }

  ghost predicate CommitHolds(s: System, pc: Thread)
    requires pc.Committing?
  {
    && pc.k in s.t.pending && s.t.pending[pc.k].committing && s.t.pending[pc.k].id == pc.id
    && s.t.pending[pc.k].refresh == pc.refresh && s.t.pending[pc.k].items == pc.items
    && |pc.items| == pc.refresh.expected
    && (pc.phase == Succeeded ==> (pc.k, pc.items) in s.replaced)
    && (pc.phase != Succeeded ==> !Replaced(s, pc.k))
  }

  ghost predicate IdsDistinct(s: System) {
    forall j, k :: j in s.t.pending && k in s.t.pending && s.t.pending[j].id == s.t.pending[k].id ==> j == k
  }

  ghost predicate Inv(s: System) {
    IdsDistinct(s) && forall k :: KeyOk(s, k)
  }

  /** Nothing about `k` differs between the two systems. */
  ghost predicate SameFor(s: System, s': System, k: Key) {
    && s.nextID <= s'.nextID
    && (k in s.t.pending <==> k in s'.t.pending)
    && (k in s.t.pending ==> s.t.pending[k] == s'.t.pending[k])
    && (k in s.t.completed <==> k in s'.t.completed)
    && (k in s.t.completed ==> s.t.completed[k] == s'.t.completed[k])
    && (forall me :: CommitsFor(s, me, k) <==> CommitsFor(s', me, k))
    && (forall me :: CommitsFor(s, me, k) ==> s.threads[me] == s'.threads[me])
    && (forall me :: StalesFor(s, me, k) <==> StalesFor(s', me, k))
    && (forall me :: StalesFor(s, me, k) ==> s.threads[me].refresh == s'.threads[me].refresh)
    && (s'.replaced == s.replaced || (|s'.replaced| == |s.replaced| + 1 && s.replaced <= s'.replaced && s'.replaced[|s.replaced|].0 != k))
  }

  lemma SameForKeepsKeyOk(s: System, s': System, k: Key)
    requires KeyOk(s, k) && SameFor(s, s', k)
    ensures KeyOk(s', k)
  {
    assert Replaced(s, k) <==> Replaced(s', k);
  }

  /** The one key a step can concern. */
  function Focus(s: System, e: Event): Key {
    match e
    case CallStart(_, refresh, _) => refresh.Key()
    case CallPage(_, page, _) => CatalogKey(page.device, page.sn)
    case CallExpire(_, k, _) => k
    case _ =>
      if e.thread !in s.threads then CatalogKey("", 0)
      else
        match s.threads[e.thread]
        case StartRefreshing(refresh, _, _) => refresh.Key()
        case Installing(got, _, _) => got.Key()
        case Accepting(page, _) => CatalogKey(page.device, page.sn)
        case Committing(k, _, _, _, _) => k
        case Staling(refresh, _) => refresh.Key()
  }

  lemma OnlyCallerMoves(s: System, e: Event)
    ensures forall m :: m != e.thread ==> (m in Step(s, e).threads <==> m in s.threads)
    ensures forall m :: m != e.thread && m in s.threads ==> Step(s, e).threads[m] == s.threads[m]
  {}

  ghost predicate SameTables(t: Tables, t': Tables, k: Key) {
    && (k in t.pending <==> k in t'.pending)
    && (k in t.pending ==> t.pending[k] == t'.pending[k])
    && (k in t.completed <==> k in t'.completed)
    && (k in t.completed ==> t.completed[k] == t'.completed[k])
  }

  lemma AcceptTouchesOneKey(t: Tables, page: Page, now: Time, k: Key)
    requires k != CatalogKey(page.device, page.sn)
    ensures SameTables(t, Accept(t, page, now).0, k)
  {}

  /** Each section writes under its own key only. */
  lemma TablesTouchFocusOnly(s: System, e: Event, k: Key)
    requires k != Focus(s, e)
    ensures SameTables(s.t, Step(s, e).t, k)
  {
    if e.Section? && e.thread in s.threads && s.threads[e.thread].Accepting? {
      AcceptTouchesOneKey(s.t, s.threads[e.thread].page, s.threads[e.thread].now, k);
    }
  }

  lemma ThreadsTouchFocusOnly(s: System, e: Event, k: Key)
    requires Inv(s) && k != Focus(s, e) && Step(s, e) != s
    ensures !CommitsFor(s, e.thread, k) && !StalesFor(s, e.thread, k)
    ensures !CommitsFor(Step(s, e), e.thread, k) && !StalesFor(Step(s, e), e.thread, k)
  {
    assert KeyOk(s, Focus(s, e));
  }

  lemma StepTouchesFocusOnly(s: System, e: Event, k: Key)
    requires Inv(s) && k != Focus(s, e)
    ensures SameFor(s, Step(s, e), k)
  {
    var s' := Step(s, e);
    if s' != s {
      OnlyCallerMoves(s, e);
      TablesTouchFocusOnly(s, e, k);
      ThreadsTouchFocusOnly(s, e, k);
      Bystanders(s, s', e.thread, k);
    }
  }

  /** The other goroutines stand where they stood. */
  ghost predicate Moves(s: System, s': System, me: nat) {
    && (forall m :: m != me ==> (m in s'.threads <==> m in s.threads))
    && (forall m :: m != me && m in s.threads ==> s'.threads[m] == s.threads[m])
  }

  lemma Bystanders(s: System, s': System, me: nat, k: Key)
    requires Moves(s, s', me)
    ensures forall m :: m != me ==> (CommitsFor(s', m, k) <==> CommitsFor(s, m, k))
    ensures forall m :: m != me ==> (StalesFor(s', m, k) <==> StalesFor(s, m, k))
  {}

  lemma StaleBegins(s: System, s': System, me: nat, k: Key)
    requires KeyOk(s, k) && k in s.t.pending && !s.t.pending[k].staling && !s.t.pending[k].committing
    requires Moves(s, s', me) && !CommitsFor(s, me, k) && !StalesFor(s, me, k)
    requires s'.t == s.t.(pending := s.t.pending[k := s.t.pending[k].(staling := true)])
    requires s'.threads == s.threads[me := Staling(s.t.pending[k].refresh, Calling)]
    requires s'.nextID == s.nextID && s'.replaced == s.replaced
    ensures KeyOk(s', k)
  {
    Bystanders(s, s', me, k);
    assert StalesFor(s', me, k);
    assert forall m :: !CommitsFor(s, m, k) && !StalesFor(s, m, k);
    assert forall m :: !CommitsFor(s', m, k);
    assert Replaced(s, k) <==> Replaced(s', k);
  }

  lemma CommitBegins(s: System, s': System, me: nat, k: Key, items: map<string, Item>)
    requires KeyOk(s, k) && k in s.t.pending && !s.t.pending[k].staling && !s.t.pending[k].committing
    requires Moves(s, s', me) && !CommitsFor(s, me, k) && !StalesFor(s, me, k) && Keyed(items)
    requires |items| == s.t.pending[k].refresh.expected
    requires s'.t == s.t.(pending := s.t.pending[k := s.t.pending[k].(items := items, committing := true)])
    requires s'.threads == s.threads[me := Committing(k, s.t.pending[k].id, s.t.pending[k].refresh, items, Calling)]
    requires s'.nextID == s.nextID && s'.replaced == s.replaced
    ensures KeyOk(s', k)
  {
    Bystanders(s, s', me, k);
    assert CommitsFor(s', me, k);
    assert forall m :: !CommitsFor(s, m, k) && !StalesFor(s, m, k);
    assert forall m :: !StalesFor(s', m, k);
    assert Replaced(s, k) <==> Replaced(s', k);
  }

  /** Entering a call, and StartRefresh returning, touch no flag and no owner. */
  lemma QuietKeepsFocus(s: System, e: Event)
    requires KeyOk(s, Focus(s, e)) && (e.CallStart? || e.CallPage? || e.StartRefreshReturns?)
    ensures KeyOk(Step(s, e), Focus(s, e))
  {
    var k, s' := Focus(s, e), Step(s, e);
    if s' != s {
      OnlyCallerMoves(s, e);
      Bystanders(s, s', e.thread, k);
      assert !CommitsFor(s, e.thread, k) && !StalesFor(s, e.thread, k);
      assert !CommitsFor(s', e.thread, k) && !StalesFor(s', e.thread, k);
      SameForKeepsKeyOk(s, s', k);
    }
  }

  lemma MarkReturned(s: System, me: nat, k: Key, ok: bool)
    requires KeyOk(s, k) && StalesFor(s, me, k)
    ensures KeyOk(Step(s, MarkStaleReturns(me, ok)), k)
  {
    var s' := Step(s, MarkStaleReturns(me, ok));
    OnlyCallerMoves(s, MarkStaleReturns(me, ok));
    Bystanders(s, s', me, k);
    assert StalesFor(s', me, k) && !CommitsFor(s', me, k);
    SameForKeepsKeyOk(s, s', k);
  }

  lemma ExpireKeepsFocus(s: System, me: nat, k: Key, now: Time)
    requires KeyOk(s, k)
    ensures KeyOk(Step(s, CallExpire(me, k, now)), k)
  {
    var s' := Step(s, CallExpire(me, k, now));
    if s' != s {
      OnlyCallerMoves(s, CallExpire(me, k, now));
      StaleBegins(s, s', me, k);
    }
  }

  lemma StepKeepsFocus(s: System, e: Event)
    requires Inv(s)
    ensures KeyOk(Step(s, e), Focus(s, e))
  {
    var k, me := Focus(s, e), e.thread;
    assert KeyOk(s, k);
    match e
    case CallExpire(_, _, now) => ExpireKeepsFocus(s, me, k, now);
    case ReplaceReturns(_, ok) =>
      if CommitsFor(s, me, k) && s.threads[me].phase == Calling { ReplaceReturned(s, Step(s, e), me, k, ok); }
    case MarkStaleReturns(_, ok) =>
      if StalesFor(s, me, k) { MarkReturned(s, me, k, ok); }
    case Section(_) =>
      if me in s.threads { SectionKeepsFocus(s, me); }
    case _ => QuietKeepsFocus(s, e);
  }

  lemma ReplaceReturned(s: System, s': System, me: nat, k: Key, ok: bool)
    requires KeyOk(s, k) && CommitsFor(s, me, k) && s.threads[me].phase == Calling
    requires s' == Step(s, Event.ReplaceReturns(me, ok))
    ensures KeyOk(s', k)
  {
    Bystanders(s, s', me, k);
    assert CommitsFor(s', me, k);
    if ok { assert s'.replaced[|s.replaced|].0 == k; }
    assert Replaced(s', k) <==> ok;
  }

  lemma SectionKeepsFocus(s: System, me: nat)
    requires Inv(s) && me in s.threads
    ensures KeyOk(RunSection(s, me), Focus(s, Event.Section(me)))
  {
    var k := Focus(s, Event.Section(me));
    assert KeyOk(s, k);
    match s.threads[me]
    case StartRefreshing(_, _, _) =>
    case Installing(_, _, _) => InstallKeepsFocus(s, me, k);
    case Accepting(page, now) => AcceptKeepsFocus(s, me, page, now);
    case Committing(_, _, _, _, phase) =>
      if phase != Calling { CommitEnds(s, me, k); }
    case Staling(_, phase) =>
      if phase != Calling { StaleEnds(s, me, k); }
  }

  lemma InstallKeepsFocus(s: System, me: nat, k: Key)
    requires KeyOk(s, k) && me in s.threads && s.threads[me].Installing? && s.threads[me].got.Key() == k
    ensures KeyOk(RunSection(s, me), k)
  {
    var s' := RunSection(s, me);
    OnlyCallerMoves(s, Event.Section(me));
    Bystanders(s, s', me, k);
    assert !CommitsFor(s, me, k) && !StalesFor(s, me, k) && !CommitsFor(s', me, k) && !StalesFor(s', me, k);
    if k in s.t.pending || k in s.t.completed {
      assert s'.t == s.t;
      SameForKeepsKeyOk(s, s', k);
    } else {
      assert forall m :: !CommitsFor(s', m, k) && !StalesFor(s', m, k);
      assert Replaced(s, k) <==> Replaced(s', k);
    }
  }

  lemma StaleEnds(s: System, me: nat, k: Key)
    requires KeyOk(s, k) && StalesFor(s, me, k) && s.threads[me].phase != Calling
    ensures KeyOk(RunSection(s, me), k)
  {
    var s' := RunSection(s, me);
    OnlyCallerMoves(s, Event.Section(me));
    Bystanders(s, s', me, k);
    assert Replaced(s, k) <==> Replaced(s', k);
    assert forall m :: !CommitsFor(s', m, k) && !StalesFor(s', m, k);
  }

  lemma CommitEnds(s: System, me: nat, k: Key)
    requires KeyOk(s, k) && CommitsFor(s, me, k) && s.threads[me].phase != Calling
    ensures KeyOk(RunSection(s, me), k)
  {
    var s' := RunSection(s, me);
    OnlyCallerMoves(s, Event.Section(me));
    Bystanders(s, s', me, k);
    assert Replaced(s, k) <==> Replaced(s', k);
    assert CommitHolds(s, s.threads[me]);
    assert forall m :: !CommitsFor(s', m, k) && !StalesFor(s', m, k);
    if s.threads[me].phase == Succeeded {
      var i :| 0 <= i < |s.replaced| && s.replaced[i] == (k, s.threads[me].items);
      assert s'.replaced[i].0 == k && |s'.replaced[i].1| == s'.t.completed[k].expected;
    }
  }

  lemma AcceptKeepsFocus(s: System, me: nat, page: Page, now: Time)
    requires KeyOk(s, CatalogKey(page.device, page.sn)) && me in s.threads && s.threads[me] == Accepting(page, now)
    ensures KeyOk(RunSection(s, me), CatalogKey(page.device, page.sn))
  {
    var k, s' := CatalogKey(page.device, page.sn), RunSection(s, me);
    var (t, r) := Accept(s.t, page, now);
    assert s'.t == t && s'.nextID == s.nextID && s'.replaced == s.replaced;
    OnlyCallerMoves(s, Event.Section(me));
    assert !CommitsFor(s, me, k) && !StalesFor(s, me, k);
    match r
    case BeginStale(_) => StaleBegins(s, s', me, k);
    case BeginCommit(_, _, items, _) =>
      MergeGrows(s.t.pending[k].items, page.items);
      CommitBegins(s, s', me, k, items);
    case _ => AcceptOnlyMerges(s, me, page, now);
  }

  /** Where the main section answers or refuses, it has at most merged items. */
  lemma AcceptMerges(t: Tables, page: Page, now: Time)
    requires Accept(t, page, now).1.Answer? || Accept(t, page, now).1.Refuse?
    ensures var k := CatalogKey(page.device, page.sn); var t' := Accept(t, page, now).0;
      t' == t || (k in t.pending && !t.pending[k].staling && !t.pending[k].committing
                  && t' == t.(pending := t.pending[k := t.pending[k].(items := Merge(t.pending[k].items, page.items).items)]))
  {}

  lemma AcceptOnlyMerges(s: System, me: nat, page: Page, now: Time)
    requires KeyOk(s, CatalogKey(page.device, page.sn)) && me in s.threads && s.threads[me] == Accepting(page, now)
    requires Accept(s.t, page, now).1.Answer? || Accept(s.t, page, now).1.Refuse?
    ensures KeyOk(RunSection(s, me), CatalogKey(page.device, page.sn))
  {
    AcceptMerges(s.t, page, now);
    OnlyMerges(s, s.(t := Accept(s.t, page, now).0, threads := s.threads - {me}), me, page);
  }

  lemma OnlyMerges(s: System, s': System, me: nat, page: Page)
    requires var k := CatalogKey(page.device, page.sn);
      && KeyOk(s, k) && me in s.threads && s.threads[me].Accepting? && s' == s.(t := s'.t, threads := s.threads - {me})
      && (s'.t == s.t || (k in s.t.pending && !s.t.pending[k].staling && !s.t.pending[k].committing
                          && s'.t == s.t.(pending := s.t.pending[k := s.t.pending[k].(items := Merge(s.t.pending[k].items, page.items).items)])))
    ensures KeyOk(s', CatalogKey(page.device, page.sn))
  {
    var k := CatalogKey(page.device, page.sn);
    if s'.t == s.t {
      Bystanders(s, s', me, k);
      SameForKeepsKeyOk(s, s', k);
    } else {
      MergeGrows(s.t.pending[k].items, page.items);
      ItemsGrow(s, s', me, k);
    }
  }

  lemma ItemsGrow(s: System, s': System, me: nat, k: Key)
    requires KeyOk(s, k) && k in s.t.pending && !s.t.pending[k].staling && !s.t.pending[k].committing
    requires Moves(s, s', me) && me !in s'.threads && k in s'.t.pending && Keyed(s'.t.pending[k].items)
    requires s'.t == s.t.(pending := s.t.pending[k := s.t.pending[k].(items := s'.t.pending[k].items)])
    requires s'.nextID == s.nextID && s'.replaced == s.replaced
    ensures KeyOk(s', k)
  {
    Bystanders(s, s', me, k);
    assert forall m :: !CommitsFor(s, m, k) && !StalesFor(s, m, k);
    assert forall m :: !CommitsFor(s', m, k) && !StalesFor(s', m, k);
    assert Replaced(s, k) <==> Replaced(s', k);
  }

  lemma InvStep(s: System, e: Event)
    requires Inv(s)
    ensures Inv(Step(s, e))
  {
    var s' := Step(s, e);
    forall k ensures KeyOk(s', k) {
      if k == Focus(s, e) {
        StepKeepsFocus(s, e);
      } else {
        StepTouchesFocusOnly(s, e, k);
        assert KeyOk(s, k);
        SameForKeepsKeyOk(s, s', k);
      }
    }
    forall j, k | j in s'.t.pending && k in s'.t.pending && s'.t.pending[j].id == s'.t.pending[k].id ensures j == k {
      assert KeyOk(s, j) && KeyOk(s, k);
      if j != Focus(s, e) { StepTouchesFocusOnly(s, e, j); }
      if k != Focus(s, e) { StepTouchesFocusOnly(s, e, k); }
      IdsComeFromBefore(s, e);
    }
  }

  lemma AcceptKeepsIds(t: Tables, page: Page, now: Time, k: Key)
    ensures var t' := Accept(t, page, now).0;
      k in t'.pending ==> k in t.pending && t'.pending[k].id == t.pending[k].id
  {}

  lemma IdsComeFromBefore(s: System, e: Event)
    requires Inv(s)
    ensures var k := Focus(s, e); var t' := Step(s, e).t;
      k in t'.pending ==> t'.pending[k].id == s.nextID || (k in s.t.pending && t'.pending[k].id == s.t.pending[k].id)
  {
    if e.Section? && e.thread in s.threads && s.threads[e.thread].Accepting? {
      AcceptKeepsIds(s.t, s.threads[e.thread].page, s.threads[e.thread].now, Focus(s, e));
    }
  }

  lemma {:induction false} InvRun(s: System, events: seq<Event>)
    requires Inv(s)
    ensures Inv(Run(s, events))
  {
    if events != [] {
      InvRun(s, events[..|events| - 1]);
      InvStep(Run(s, events[..|events| - 1]), events[|events| - 1]);
    }
  }

  // ----- main results: for every run from the empty coordinator

  /** `committing` is set exactly while one goroutine is inside ReplaceCatalog for
      that very object, whose items are frozen meanwhile; `staling` exactly while
      one is inside markStale for that refresh; never both. */
  lemma FlagsNameTheirGoroutine(events: seq<Event>, k: Key)
    requires k in Run(INITIAL, events).t.pending
    ensures var s := Run(INITIAL, events); var p := s.t.pending[k];
      && (p.committing <==> exists me :: CommitsFor(s, me, k))
      && (p.staling <==> exists me :: StalesFor(s, me, k))
      && !(p.committing && p.staling)
      && (forall a, b :: CommitsFor(s, a, k) && CommitsFor(s, b, k) ==> a == b)
      && (forall a, b :: StalesFor(s, a, k) && StalesFor(s, b, k) ==> a == b)
      && (forall me :: CommitsFor(s, me, k) ==>
            s.threads[me].id == p.id && s.threads[me].refresh == p.refresh && s.threads[me].items == p.items)
      && (forall me :: StalesFor(s, me, k) ==> s.threads[me].refresh == p.refresh)
  {
    InvRun(INITIAL, events);
    assert KeyOk(Run(INITIAL, events), k);
  }

  /** The recheck after a successful ReplaceCatalog cannot fail, so the call never
      answers ErrStore for a catalog that was in fact replaced. */
  lemma RecheckNeverFails(events: seq<Event>, me: nat)
    requires var s := Run(INITIAL, events); me in s.threads && s.threads[me].Committing?
    ensures var s := Run(INITIAL, events); var pc := s.threads[me];
      StillCommitting(s.t, pc.k, pc.id) && CommitDone(s.t, pc.k, pc.id, pc.refresh).1
  {
    InvRun(INITIAL, events);
    var s := Run(INITIAL, events);
    assert KeyOk(s, s.threads[me].k);
    assert CommitsFor(s, me, s.threads[me].k);
  }

  /** At most one ReplaceCatalog succeeds per device and serial number over the whole
      run, it carries as many items as the refresh announced, and what is
      completed is not pending. */
  lemma OneReplacementPerRefresh(events: seq<Event>)
    ensures var s := Run(INITIAL, events);
      && (forall i, j :: 0 <= i < j < |s.replaced| ==> s.replaced[i].0 != s.replaced[j].0)
      && (forall k :: k in s.t.completed ==> k !in s.t.pending)
      && (forall k :: k in s.t.completed ==> exists i ::
            0 <= i < |s.replaced| && s.replaced[i].0 == k && |s.replaced[i].1| == s.t.completed[k].expected)
  {
    InvRun(INITIAL, events);
    var s := Run(INITIAL, events);
    forall i, j | 0 <= i < j < |s.replaced| ensures s.replaced[i].0 != s.replaced[j].0 { assert KeyOk(s, s.replaced[i].0); }
    forall k | k in s.t.completed
      ensures k !in s.t.pending
      ensures exists i :: 0 <= i < |s.replaced| && s.replaced[i].0 == k && |s.replaced[i].1| == s.t.completed[k].expected
    { assert KeyOk(s, k); }
  }

  /** A completed refresh is never forgotten, overwritten or started again,
      however the run continues. */
  lemma {:induction false} CompletedOnlyGrows(events: seq<Event>, more: seq<Event>, k: Key)
    requires k in Run(INITIAL, events).t.completed
    ensures var before, after := Run(INITIAL, events).t, Run(Run(INITIAL, events), more).t;
      k in after.completed && after.completed[k] == before.completed[k] && k !in after.pending
  {
    InvRun(INITIAL, events);
    CompletedStaysAlong(Run(INITIAL, events), more, k);
  }

  lemma {:induction false} CompletedStaysAlong(s: System, more: seq<Event>, k: Key)
    requires Inv(s) && k in s.t.completed
    ensures var after := Run(s, more).t;
      k in after.completed && after.completed[k] == s.t.completed[k] && k !in after.pending
  {
    if more == [] {
      assert KeyOk(s, k);
    } else {
      var init := more[..|more| - 1];
      CompletedStaysAlong(s, init, k);
      InvRun(s, init);
      CompletedStays(Run(s, init), more[|more| - 1], k);
    }
  }

  lemma RunOneMore(s: System, events: seq<Event>, e: Event)
    ensures Run(s, events + [e]) == Step(Run(s, events), e)
  {
    assert (events + [e])[..|events|] == events;
  }

  lemma CompletedStays(s: System, e: Event, k: Key)
    requires Inv(s) && k in s.t.completed
    ensures var t' := Step(s, e).t;
      k in t'.completed && t'.completed[k] == s.t.completed[k] && k !in t'.pending
  {
    InvStep(s, e);
    assert KeyOk(s, k) && KeyOk(Step(s, e), k);
    if k != Focus(s, e) {
      StepTouchesFocusOnly(s, e, k);
    } else if Step(s, e) != s && e.thread in s.threads && s.threads[e.thread].Committing? {
      assert CommitsFor(s, e.thread, k);
    }
  }

  /** Object `id`, if it is pending under `k`, has more items than were announced. */
  ghost predicate Overfull(s: System, k: Key, id: nat) {
    id < s.nextID && (k in s.t.pending && s.t.pending[k].id == id ==> |s.t.pending[k].items| > s.t.pending[k].refresh.expected)
  }

  lemma AcceptItemsGrow(t: Tables, page: Page, now: Time, k: Key)
    ensures var t' := Accept(t, page, now).0;
      k in t'.pending ==> k in t.pending && t'.pending[k].refresh == t.pending[k].refresh && |t'.pending[k].items| >= |t.pending[k].items|
  {
    if CatalogKey(page.device, page.sn) in t.pending { MergeSize(t.pending[CatalogKey(page.device, page.sn)].items, page.items); }
  }

  /** No step takes an item from a pending object or changes its refresh. */
  lemma ItemsOnlyGrow(s: System, e: Event, k: Key)
    ensures var t' := Step(s, e).t;
      k in t'.pending && k in s.t.pending ==>
        t'.pending[k].refresh == s.t.pending[k].refresh && |t'.pending[k].items| >= |s.t.pending[k].items|
  {
    if e.Section? && e.thread in s.threads && s.threads[e.thread].Accepting? {
      AcceptItemsGrow(s.t, s.threads[e.thread].page, s.threads[e.thread].now, k);
    }
  }

  lemma OverfullStays(s: System, e: Event, k: Key, id: nat)
    requires Inv(s) && Overfull(s, k, id)
    ensures Overfull(Step(s, e), k, id)
  {
    ItemsOnlyGrow(s, e, k);
    if k == Focus(s, e) { IdsComeFromBefore(s, e); } else { StepTouchesFocusOnly(s, e, k); }
    NextIDGrows(s, e);
  }

  lemma NextIDGrows(s: System, e: Event)
    ensures Step(s, e).nextID >= s.nextID
  {}

  lemma {:induction false} OverfullAlong(s: System, more: seq<Event>, k: Key, id: nat)
    requires Inv(s) && Overfull(s, k, id)
    ensures Overfull(Run(s, more), k, id)
  {
    if more != [] {
      var init := more[..|more| - 1];
      OverfullAlong(s, init, k, id);
      InvRun(s, init);
      OverfullStays(Run(s, init), more[|more| - 1], k, id);
    }
  }

  /** A pending refresh that has come to hold more items than it announced never commits: in
      every continuation the object is gone or still overfull, and no goroutine replaces the
      catalog with it. */
  lemma OverfullNeverCommits(events: seq<Event>, more: seq<Event>, k: Key)
    requires var t := Run(INITIAL, events).t; k in t.pending && |t.pending[k].items| > t.pending[k].refresh.expected
    ensures var id := Run(INITIAL, events).t.pending[k].id; var s := Run(Run(INITIAL, events), more);
      && Overfull(s, k, id)
      && (k in s.t.pending && s.t.pending[k].id == id ==> !s.t.pending[k].committing)
      && forall me :: CommitsFor(s, me, k) ==> s.threads[me].id != id
  {
    InvRun(INITIAL, events);
    var before := Run(INITIAL, events);
    var id := before.t.pending[k].id;
    assert KeyOk(before, k);
    OverfullAlong(before, more, k, id);
    InvRun(before, more);
    assert KeyOk(Run(before, more), k);
  }

  // ----- what does not hold

  /** One more step of a run whose state so far is known. */
  lemma Then(events: seq<Event>, s: System, e: Event, s': System) returns (longer: seq<Event>)
    requires Run(INITIAL, events) == s && Step(s, e) == s'
    ensures Run(INITIAL, longer) == s'
  {
    longer := events + [e];
    RunOneMore(INITIAL, events, e);
  }

  /** Two Starts of one refresh are inside StartRefresh; the second installs it. */
  lemma InstalledBesideALateStart(r: Refresh) returns (events: seq<Event>)
    ensures Run(INITIAL, events) ==
      System(Tables(map[r.Key() := Pending(0, r, map[], false, false)], map[], map[]), map[1 := StartRefreshing(r, None, 0)], 1, [])
  {
    var late := StartRefreshing(r, None, 0);
    var s1 := System(EMPTY, map[1 := late], 0, []);
    var s2 := System(EMPTY, map[1 := late, 2 := late], 0, []);
    var s3 := System(EMPTY, map[1 := late, 2 := Installing(r, None, 0)], 0, []);
    events := Then([], INITIAL, CallStart(1, r, 0), s1);
    events := Then(events, s1, CallStart(2, r, 0), s2);
    events := Then(events, s2, StartRefreshReturns(2, true, r.deadline), s3);
    var s4 := System(Tables(map[r.Key() := Pending(0, r, map[], false, false)], map[], map[]), map[1 := late], 1, []);
    assert s3.threads - {2} == s4.threads;
    events := Then(events, s3, Section(2), s4);
  }

  /** A third goroutine lets the refresh expire. */
  lemma ExpiryAlone(s: System, r: Refresh)
    requires s.threads == map[1 := StartRefreshing(r, None, 0)]
    requires s.t == Tables(map[r.Key() := Pending(0, r, map[], false, false)], map[], map[])
    ensures var s' := Step(Step(Step(s, CallExpire(3, r.Key(), r.deadline)), MarkStaleReturns(3, true)), Section(3));
      s' == s.(t := Tables(map[], map[], map[r.Key() := r]))
  {
    var k := r.Key();
    var t5 := Tables(map[k := s.t.pending[k].(staling := true)], map[], map[]);
    var s5 := s.(t := t5, threads := s.threads[3 := Staling(r, Calling)]);
    assert Step(s, CallExpire(3, k, r.deadline)) == s5;
    var s6 := s.(t := t5, threads := s.threads[3 := Staling(r, Succeeded)]);
    assert Step(s5, MarkStaleReturns(3, true)) == s6;
    assert s6.threads - {3} == s.threads;
    assert t5.pending - {k} == map[];
  }

  /** It expires while the first Start is still there. */
  lemma ExpiredBesideALateStart(r: Refresh) returns (events: seq<Event>)
    ensures Run(INITIAL, events) == System(Tables(map[], map[], map[r.Key() := r]), map[1 := StartRefreshing(r, None, 0)], 1, [])
  {
    events := InstalledBesideALateStart(r);
    var s4 := Run(INITIAL, events);
    ExpiryAlone(s4, r);
    var s5 := Step(s4, CallExpire(3, r.Key(), r.deadline));
    var s6 := Step(s5, MarkStaleReturns(3, true));
    events := Then(events, s4, CallExpire(3, r.Key(), r.deadline), s5);
    events := Then(events, s5, MarkStaleReturns(3, true), s6);
    events := Then(events, s6, Section(3), Step(s6, Section(3)));
  }

  /** Under interleaving a refresh can be pending and stale at once: a Start that
      was inside StartRefresh while another goroutine let it expire installs it again. */
  lemma PendingAndStaleCanOverlap(r: Refresh)
    ensures exists events :: r.Key() in Run(INITIAL, events).t.pending && r.Key() in Run(INITIAL, events).t.stale
  {
    var events := ExpiredBesideALateStart(r);
    var s7 := Run(INITIAL, events);
    var s8 := Step(s7, StartRefreshReturns(1, true, r.deadline));
    events := Then(events, s7, StartRefreshReturns(1, true, r.deadline), s8);
    events := Then(events, s8, Section(1), Step(s8, Section(1)));
    assert r.Key() in Run(INITIAL, events).t.pending;
  }

  /** That late install is the only way in. */
  lemma OverlapOnlyByLateInstall(s: System, e: Event, k: Key)
    requires Inv(s) && !(k in s.t.pending && k in s.t.stale)
    ensures (k in Step(s, e).t.pending && k in Step(s, e).t.stale)
      <==> (e.Section? && e.thread in s.threads && s.threads[e.thread].Installing? && s.threads[e.thread].got.Key() == k
            && k in s.t.stale && k !in s.t.completed)
  {
    assert KeyOk(s, k);
    StaleOnlyByMark(s, e, k);
    if k != Focus(s, e) { StepTouchesFocusOnly(s, e, k); }
  }

  lemma AcceptKeepsStale(t: Tables, page: Page, now: Time)
    ensures Accept(t, page, now).0.stale == t.stale
  {}

  lemma StaleOnlyByMark(s: System, e: Event, k: Key)
    requires Inv(s)
    ensures k in s.t.stale ==> k in Step(s, e).t.stale
    ensures k in Step(s, e).t.stale && k !in s.t.stale ==> k !in Step(s, e).t.pending
  {
    if e.Section? && e.thread in s.threads && s.threads[e.thread].Accepting? {
      AcceptKeepsStale(s.t, s.threads[e.thread].page, s.threads[e.thread].now);
    }
  }
}
