/** What a page or an Expire comes to, told by the goroutine and the tables it leaves:
    when a refresh is committed, when it goes stale, and what the caller is told. */
module CatalogOutcomes {
  import opened Prelude
  import opened CatalogModel
  import opened CatalogConcurrency
  import opened CatalogPages

  function PageKey(page: Page): Key { CatalogKey(page.device, page.sn) }

  /** The refresh collects pages: pending, not completed, nobody in the store for it. */
  ghost predicate Open(t: Tables, k: Key) {
    k in t.pending && k !in t.completed && !t.pending[k].staling && !t.pending[k].committing
  }

  ghost predicate IsStaling(s: System, me: nat) { me in s.threads && s.threads[me].Staling? }
  ghost predicate IsCommitting(s: System, me: nat) { me in s.threads && s.threads[me].Committing? }

  /** What the refresh would hold with the page: nothing contradicts, and this many channels. */
  ghost predicate Completes(p: Pending, page: seq<Item>, items: map<string, Item>) {
    && Clean(p.items, page) && |items| == p.refresh.expected
    && (forall c :: c in p.items ==> c in items && items[c] == p.items[c])
    && (forall i :: 0 <= i < |page| ==> page[i].channelID in items && items[page[i].channelID] == page[i])
    && (forall c :: c in items && c !in p.items ==> items[c] in page && items[c].channelID == c)
  }

  /** `s'` is `s` with that refresh going stale by the hand of `me`, everything else as it was. */
  ghost predicate OnlyGoesStale(s: System, s': System, me: nat, k: Key) {
    && k in s.t.pending
    && s'.t.completed == s.t.completed && s'.t.stale == s.t.stale && s'.replaced == s.replaced && s'.nextID == s.nextID
    && s'.threads == s.threads[me := Staling(s.t.pending[k].refresh, Calling)]
    && s'.t.pending == s.t.pending[k := Pending(s.t.pending[k].id, s.t.pending[k].refresh, s.t.pending[k].items, true, false)]
  }

  // ----- one main section, one Expire

  /** A page's main section leads to MarkStale exactly if the refresh is open and its
      deadline has come; the refresh then only gets its flag. */
  lemma PageGoesStaleIff(s: System, me: nat, page: Page, now: Time)
    requires me in s.threads && s.threads[me] == Accepting(page, now)
    ensures var k, s' := PageKey(page), Step(s, Event.Section(me));
      (IsStaling(s', me) <==> Open(s.t, k) && now >= s.t.pending[k].refresh.deadline)
      && (IsStaling(s', me) ==> OnlyGoesStale(s, s', me, k))
  {}

  /** It leads to ReplaceCatalog exactly if the refresh is open, its deadline has not come,
      and the page brings it, without contradiction, to the announced number of channels. */
  lemma PageCommitsIff(s: System, me: nat, page: Page, now: Time)
    requires me in s.threads && s.threads[me] == Accepting(page, now)
    requires PageKey(page) in s.t.pending ==> Keyed(s.t.pending[PageKey(page)].items)
    ensures var k, s' := PageKey(page), Step(s, Event.Section(me));
      (IsCommitting(s', me) <==>
          Open(s.t, k) && now < s.t.pending[k].refresh.deadline && exists items :: Completes(s.t.pending[k], page.items, items))
      && (IsCommitting(s', me) ==>
          s'.threads[me].k == k && s'.threads[me].phase == Calling && s'.threads[me].refresh == s.t.pending[k].refresh
          && Completes(s.t.pending[k], page.items, s'.threads[me].items))
      && (!IsCommitting(s', me) && !IsStaling(s', me) ==> s'.threads == s.threads - {me})
  {
    var k, s' := PageKey(page), Step(s, Event.Section(me));
    if Open(s.t, k) && now < s.t.pending[k].refresh.deadline {
      var p := s.t.pending[k];
      MergeSucceedsIffClean(p.items, page.items);
      MergeGrows(p.items, page.items);
      var m := Merge(p.items, page.items);
      if !m.conflict {
        MergeHolds(p.items, page.items);
        forall items | Completes(p, page.items, items) ensures |m.items| == p.refresh.expected {
          SameUnion(p, page.items, items, m.items);
        }
        if |m.items| == p.refresh.expected { assert Completes(p, page.items, m.items); }
      }
    }
  }

  lemma SameUnion(p: Pending, page: seq<Item>, a: map<string, Item>, b: map<string, Item>)
    requires Completes(p, page, a)
    requires forall c :: c in p.items ==> c in b && b[c] == p.items[c]
    requires forall i :: 0 <= i < |page| ==> page[i].channelID in b && b[page[i].channelID] == page[i]
    requires forall c :: c in b && c !in p.items ==> b[c] in page && b[c].channelID == c
    ensures a == b
  {}

  /** Expire leads to MarkStale exactly if the refresh is pending, without a flag, and due. */
  lemma ExpireGoesStaleIff(s: System, me: nat, k: Key, now: Time)
    requires me !in s.threads
    ensures var s' := Step(s, CallExpire(me, k, now));
      (IsStaling(s', me) <==>
          k in s.t.pending && !s.t.pending[k].staling && !s.t.pending[k].committing && now >= s.t.pending[k].refresh.deadline)
      && (if IsStaling(s', me) then OnlyGoesStale(s, s', me, k) else s' == s)
  {}

  /** The goroutine is back from the store. */
  ghost predicate Returned(s: System, me: nat, phase: Phase) {
    me in s.threads && (s.threads[me].Committing? || s.threads[me].Staling?) && s.threads[me].phase == phase
  }

  /** When the store call failed the refresh is open again with all it had collected. */
  lemma FailedStoreCallReopens(s: System, me: nat)
    requires Inv(s) && Returned(s, me, Failed)
    ensures var s', k := Step(s, Event.Section(me)), Focus(s, Event.Section(me));
      && Open(s'.t, k) && k in s.t.pending && s'.t.pending.Keys == s.t.pending.Keys
      && s'.t.pending[k].items == s.t.pending[k].items && s'.t.pending[k].refresh == s.t.pending[k].refresh
      && (forall j :: j in s.t.pending && j != k ==> s'.t.pending[j] == s.t.pending[j])
      && s'.t.completed == s.t.completed && s'.t.stale == s.t.stale && s'.threads == s.threads - {me}
  {
    var k := Focus(s, Event.Section(me));
    assert KeyOk(s, k);
    assert CommitsFor(s, me, k) || StalesFor(s, me, k);
  }

  /** When it succeeded the refresh is pending no more: it is completed after ReplaceCatalog
      and stale after MarkStale, and no other refresh is concerned. */
  lemma StoreCallSettles(s: System, me: nat)
    requires Inv(s) && Returned(s, me, Succeeded)
    ensures var s', k := Step(s, Event.Section(me)), Focus(s, Event.Section(me));
      && k in s.t.pending && s'.t.pending == s.t.pending - {k} && s'.threads == s.threads - {me}
      && s'.t.completed == (if s.threads[me].Committing? then s.t.completed[k := s.t.pending[k].refresh] else s.t.completed)
      && s'.t.stale == (if s.threads[me].Committing? then s.t.stale else s.t.stale[k := s.t.pending[k].refresh])
  {
    var k := Focus(s, Event.Section(me));
    assert KeyOk(s, k);
    assert CommitsFor(s, me, k) || StalesFor(s, me, k);
  }

  /** A start that returns from the store opens the refresh, empty, unless it is known meanwhile. */
  lemma StartOpensUnlessKnown(s: System, me: nat)
    requires Inv(s) && me in s.threads && s.threads[me].Installing?
    ensures var s', got := Step(s, Event.Section(me)), s.threads[me].got; var k := got.Key();
      && (k in s.t.pending || k in s.t.completed ==> s'.t == s.t)
      && (k !in s.t.pending && k !in s.t.completed ==>
            Open(s'.t, k) && s'.t.pending[k].items == map[] && s'.t.pending[k].refresh == got
            && s'.t == s.t.(pending := s.t.pending[k := s'.t.pending[k]]))
  {
    assert KeyOk(s, s.threads[me].got.Key());
  }

  // ----- whole calls that nobody interrupts

  const WORKS := StoreAnswers(None, 0, None, None)

  /** A late page, alone with a working store, makes the refresh stale and is told so;
      if MarkStale fails the refresh stays as it was and the caller gets that error. */
  lemma LatePageAlone(s: System, me: nat, page: Page, now: Time, io: StoreAnswers)
    requires me !in s.threads && ValidPage(page) && Open(s.t, PageKey(page))
    requires var p := s.t.pending[PageKey(page)]; p.refresh.Key() == PageKey(page) && p.refresh.expected == page.sumNum && now >= p.refresh.deadline
    ensures var k, s' := PageKey(page), AcceptPageAlone(s, me, page, now, io);
      var answer := AcceptPageAnswer(s.t, s.nextID, page, now, io);
      && s'.replaced == s.replaced && s'.t.completed == s.t.completed && s'.threads == s.threads
      && (io.markError.None? ==> answer == Fails(ErrDeadline) && k !in s'.t.pending && k in s'.t.stale)
      && (io.markError.Some? ==> answer == Fails(io.markError.value) && s'.t == s.t)
  {
    var k := PageKey(page);
    var p := s.t.pending[k];
    var s1 := Step(s, CallPage(me, page, now));
    assert s1 == s.(threads := s.threads[me := Accepting(page, now)]);
    assert Step(s1, StartRefreshReturns(me, io.startError.None?, io.deadline)) == s1;
    var s2 := Step(s1, Event.Section(me));
    PageGoesStaleIff(s1, me, page, now);
    assert s2.threads == s.threads[me := Staling(p.refresh, Calling)];
    assert Step(s2, Event.Section(me)) == s2;
    MarkAlone(s, s2, me, p.refresh, io);
  }

  lemma MarkAlone(s: System, s2: System, me: nat, refresh: Refresh, io: StoreAnswers)
    requires me !in s.threads && s2.threads == s.threads[me := Staling(refresh, Calling)]
    requires s2.replaced == s.replaced && s2.nextID == s.nextID
    requires refresh.Key() in s.t.pending && !s.t.pending[refresh.Key()].staling
    requires s2.t == s.t.(pending := s.t.pending[refresh.Key() := s.t.pending[refresh.Key()].(staling := true)])
    ensures var s' := Step(Step(Step(s2, ReplaceReturns(me, io.replaceError.None?)), MarkStaleReturns(me, io.markError.None?)), Event.Section(me));
      && s'.replaced == s.replaced && s'.threads == s.threads && s'.t.completed == s.t.completed
      && (io.markError.None? ==> refresh.Key() !in s'.t.pending && refresh.Key() in s'.t.stale)
      && (io.markError.Some? ==> s'.t == s.t)
  {
    assert Step(s2, ReplaceReturns(me, io.replaceError.None?)) == s2;
    var s3 := Step(s2, MarkStaleReturns(me, io.markError.None?));
    assert s3.threads - {me} == s.threads;
    var k := refresh.Key();
    if io.markError.Some? { assert s.t.pending[k].(staling := true).(staling := false) == s.t.pending[k]; }
  }

  /** Why a valid page is refused before it is looked at: another number of channels was
      announced, the refresh is stale, or StartRefresh fails. Nothing changes then. */
  lemma PageRefusedAtStart(s: System, me: nat, page: Page, now: Time, io: StoreAnswers)
    requires me !in s.threads && ValidPage(page)
    ensures var k := PageKey(page); var t := s.t;
      var otherCount := (k in t.pending && t.pending[k].refresh.expected != page.sumNum)
        || (k !in t.pending && k !in t.stale && k in t.completed && t.completed[k].expected != page.sumNum);
      var isStale := k !in t.pending && k in t.stale;
      var unknown := k !in t.pending && k !in t.stale && k !in t.completed;
      var answer := AcceptPageAnswer(t, s.nextID, page, now, io);
      && (otherCount ==> answer == Fails(ErrInvalid))
      && (isStale ==> answer == Fails(ErrDeadline))
      && (unknown && io.startError.Some? ==> answer == Fails(io.startError.value))
      && (otherCount || isStale || (unknown && io.startError.Some?) ==> AcceptPageAlone(s, me, page, now, io) == s)
  {
    var s1 := Step(s, CallPage(me, page, now));
    var s2 := Step(s1, StartRefreshReturns(me, io.startError.None?, io.deadline));
    if s1 != s && io.startError.Some? && s1.threads[me].StartRefreshing? { assert s2.threads == s.threads; }
    if s2 == s {
      assert Step(s, Event.Section(me)) == s;
      assert Step(s, ReplaceReturns(me, io.replaceError.None?)) == s;
      assert Step(s, MarkStaleReturns(me, io.markError.None?)) == s;
    }
  }

  /** What the page leaves of an open refresh before the deadline, and what its caller is
      told: the pages contradict each other, there are too many channels, some are still
      missing, or all are there and it rests with the store. */
  ghost predicate Told(p: Pending, page: Page, io: StoreAnswers, answer: Response, t: Tables, k: Key) {
    if !Clean(p.items, page.items) then
      answer == Fails(ErrDuplicateConflict) && k in t.pending && k !in t.completed
    else if k in t.completed then
      && k !in t.pending && io.replaceError.None? && t.completed[k] == p.refresh
      && answer == Response.Page(PageResult(p.refresh, true, Repeats(p, page)))
    else
      && k in t.pending && !t.pending[k].staling && !t.pending[k].committing
      && (|t.pending[k].items| > p.refresh.expected ==> answer == Fails(ErrInvalid))
      && (|t.pending[k].items| < p.refresh.expected ==> answer == Response.Page(PageResult(p.refresh, false, Repeats(p, page))))
      && (|t.pending[k].items| == p.refresh.expected ==> io.replaceError.Some? && answer == Fails(io.replaceError.value))
  }

  lemma TimelyPageAnswer(t: Tables, id: nat, page: Page, now: Time, io: StoreAnswers)
    requires ValidPage(page) && Open(t, PageKey(page)) && Keyed(t.pending[PageKey(page)].items)
    requires t.pending[PageKey(page)].refresh.expected == page.sumNum && now < t.pending[PageKey(page)].refresh.deadline
    ensures Told(t.pending[PageKey(page)], page, io, AcceptPageAnswer(t, id, page, now, io), AfterAcceptPage(t, id, page, now, io), PageKey(page))
  {
    var p := t.pending[PageKey(page)];
    MergeSucceedsIffClean(p.items, page.items);
    if !Merge(p.items, page.items).conflict { RepeatsIff(p, page); }
    assert AfterStart(t, id, AskedBy(page, now), io) == (t, None);
    SettledPage(t, page, now, io);
  }

  lemma SettledPage(t: Tables, page: Page, now: Time, io: StoreAnswers)
    requires Open(t, PageKey(page)) && now < t.pending[PageKey(page)].refresh.deadline
    requires var p := t.pending[PageKey(page)]; (Merge(p.items, page.items).conflict <==> !Clean(p.items, page.items))
    requires var p := t.pending[PageKey(page)]; Clean(p.items, page.items) ==> (Merge(p.items, page.items).duplicate <==> Repeats(p, page))
    ensures var (t', r) := Accept(t, page, now);
      Told(t.pending[PageKey(page)], page, io, Outcome(r, io), Settle(t', PageKey(page), r, io), PageKey(page))
  {}

  lemma RepeatsIff(p: Pending, page: Page)
    requires Keyed(p.items) && !Merge(p.items, page.items).conflict
    ensures Merge(p.items, page.items).duplicate <==> Repeats(p, page)
  {
    MergeGrows(p.items, page.items);
    MergeHolds(p.items, page.items);
    var m := Merge(p.items, page.items).items;
    if Repeats(p, page) {
      assert forall c :: c in m && c !in p.items ==> m[c] in page.items;
      assert m == p.items;
    }
  }

  /** The page brings no new channel. */
  ghost predicate Repeats(p: Pending, page: Page) {
    forall i :: 0 <= i < |page.items| ==> page.items[i].channelID in p.items
  }

  /** A page of a completed refresh is answered as complete, one that meets a goroutine in
      the store as not complete or late. */
  lemma PageBesideOrAfter(t: Tables, id: nat, page: Page, now: Time, io: StoreAnswers)
    requires var k := PageKey(page); ValidPage(page) && !(k in t.pending && k in t.completed)
    ensures var k := PageKey(page); var answer := AcceptPageAnswer(t, id, page, now, io);
      && (k in t.completed && k !in t.stale && t.completed[k].expected == page.sumNum ==> answer == Response.Page(PageResult(t.completed[k], true, true)))
      && (k in t.pending && t.pending[k].refresh.expected == page.sumNum && t.pending[k].staling ==> answer == Fails(ErrDeadline))
      && (k in t.pending && t.pending[k].refresh.expected == page.sumNum && !t.pending[k].staling && t.pending[k].committing ==>
            answer == Response.Page(PageResult(t.pending[k].refresh, false, true)))
  {}

  // ----- over every run

  /** Event `j` is the main section of a page of `k`, read before the deadline of the refresh. */
  ghost predicate TimelyPage(events: seq<Event>, j: nat, me: nat, k: Key) {
    && j < |events| && events[j] == Event.Section(me)
    && var s := Run(INITIAL, events[..j]);
      && me in s.threads && s.threads[me].Accepting? && PageKey(s.threads[me].page) == k
      && k in s.t.pending && s.threads[me].now < s.t.pending[k].refresh.deadline
  }

  /** That page took the refresh into ReplaceCatalog with these items. */
  ghost predicate BeganAt(events: seq<Event>, j: nat, me: nat, k: Key, items: map<string, Item>) {
    && TimelyPage(events, j, me, k)
    && var s' := Run(INITIAL, events[..j + 1]);
      IsCommitting(s', me) && s'.threads[me].k == k && s'.threads[me].items == items
  }

  /** A timely page brought the item. */
  ghost predicate BroughtAt(events: seq<Event>, j: nat, me: nat, k: Key, x: Item) {
    TimelyPage(events, j, me, k) && x in Run(INITIAL, events[..j]).threads[me].page.items
  }

  ghost predicate Began(events: seq<Event>, k: Key, items: map<string, Item>) {
    exists j: nat, me: nat :: BeganAt(events, j, me, k, items)
  }

  ghost predicate Brought(events: seq<Event>, k: Key, x: Item) {
    exists j: nat, me: nat :: BroughtAt(events, j, me, k, x)
  }

  ghost predicate InTime(events: seq<Event>, s: System) {
    && (forall me :: IsCommitting(s, me) ==> Began(events, s.threads[me].k, s.threads[me].items))
    && (forall i :: 0 <= i < |s.replaced| ==> Began(events, s.replaced[i].0, s.replaced[i].1))
  }

  lemma BeganStays(events: seq<Event>, e: Event, k: Key, items: map<string, Item>)
    ensures Began(events, k, items) ==> Began(events + [e], k, items)
  {
    if j: nat, me: nat :| BeganAt(events, j, me, k, items) {
      assert (events + [e])[..j] == events[..j] && (events + [e])[..j + 1] == events[..j + 1];
      assert BeganAt(events + [e], j, me, k, items);
    }
  }

  lemma BroughtStays(events: seq<Event>, e: Event, k: Key, x: Item)
    ensures Brought(events, k, x) ==> Brought(events + [e], k, x)
  {
    if j: nat, me: nat :| BroughtAt(events, j, me, k, x) {
      assert (events + [e])[..j] == events[..j];
      assert BroughtAt(events + [e], j, me, k, x);
    }
  }

  /** A goroutine enters ReplaceCatalog from its main section only, and in time. */
  lemma CommittingComesFrom(s: System, e: Event, me: nat)
    requires IsCommitting(Step(s, e), me)
    ensures var pc := Step(s, e).threads[me];
      || (IsCommitting(s, me) && s.threads[me].k == pc.k && s.threads[me].items == pc.items)
      || (e == Event.Section(me) && me in s.threads && s.threads[me].Accepting? && PageKey(s.threads[me].page) == pc.k
          && pc.k in s.t.pending && s.threads[me].now < s.t.pending[pc.k].refresh.deadline)
  {
    OnlyCallerMoves(s, e);
  }

  lemma ReplacedComesFrom(s: System, e: Event)
    ensures var s' := Step(s, e);
      || s'.replaced == s.replaced
      || (IsCommitting(s, e.thread) && s'.replaced == s.replaced + [(s.threads[e.thread].k, s.threads[e.thread].items)])
  {}

  /** Main result. Every catalog that is replaced was handed to ReplaceCatalog by a page
      read before the deadline of its refresh. */
  lemma {:induction false} ReplacementsBeginInTime(events: seq<Event>)
    ensures InTime(events, Run(INITIAL, events))
  {
    if events != [] {
      var n := |events| - 1;
      var init, e := events[..n], events[n];
      ReplacementsBeginInTime(init);
      assert events == init + [e];
      var s := Run(INITIAL, init);
      var s' := Step(s, e);
      forall me | IsCommitting(s', me) ensures Began(events, s'.threads[me].k, s'.threads[me].items) {
        CommittingComesFrom(s, e, me);
        if IsCommitting(s, me) && s.threads[me].k == s'.threads[me].k && s.threads[me].items == s'.threads[me].items {
          BeganStays(init, e, s.threads[me].k, s.threads[me].items);
        } else {
          assert events[..n + 1] == events;
          assert BeganAt(events, n, me, s'.threads[me].k, s'.threads[me].items);
        }
      }
      ReplacedComesFrom(s, e);
      forall i | 0 <= i < |s'.replaced| ensures Began(events, s'.replaced[i].0, s'.replaced[i].1) {
        if i < |s.replaced| {
          BeganStays(init, e, s.replaced[i].0, s.replaced[i].1);
        } else {
          BeganStays(init, e, s.threads[e.thread].k, s.threads[e.thread].items);
        }
      }
    }
  }

  /** Pending refreshes hold items of timely pages only. */
  ghost predicate ItemsInTime(events: seq<Event>, s: System) {
    forall k, c :: k in s.t.pending && c in s.t.pending[k].items ==> Brought(events, k, s.t.pending[k].items[c])
  }

  ghost predicate AllKeyed(t: Tables) { forall k :: k in t.pending ==> Keyed(t.pending[k].items) }

  lemma InvKeyed(s: System)
    requires Inv(s)
    ensures AllKeyed(s.t)
  {
    forall k | k in s.t.pending ensures Keyed(s.t.pending[k].items) { assert KeyOk(s, k); }
  }

  /** The goroutine is at its main section with a page of `k` that holds `x` and was read before the deadline. */
  ghost predicate Brings(s: System, me: nat, k: Key, x: Item) {
    && me in s.threads && s.threads[me].Accepting? && PageKey(s.threads[me].page) == k
    && k in s.t.pending && s.threads[me].now < s.t.pending[k].refresh.deadline && x in s.threads[me].page.items
  }

  ghost predicate HasItem(t: Tables, k: Key, c: string, x: Item) {
    k in t.pending && c in t.pending[k].items && t.pending[k].items[c] == x
  }

  /** An item appears in a pending refresh by a timely page that holds it, or was there. */
  lemma ItemComesFrom(s: System, e: Event, k: Key, c: string, x: Item)
    requires AllKeyed(s.t) && HasItem(Step(s, e).t, k, c, x)
    ensures HasItem(s.t, k, c, x) || (e == Event.Section(e.thread) && Brings(s, e.thread, k, x))
  {
    if e.Section? && e.thread in s.threads { SectionItemComesFrom(s, e.thread, k, c, x); } else { OtherEventsKeepItems(s, e, k, c, x); }
  }

  lemma OtherEventsKeepItems(s: System, e: Event, k: Key, c: string, x: Item)
    requires !(e.Section? && e.thread in s.threads) && HasItem(Step(s, e).t, k, c, x)
    ensures HasItem(s.t, k, c, x)
  {}

  lemma SectionItemComesFrom(s: System, me: nat, k: Key, c: string, x: Item)
    requires AllKeyed(s.t) && me in s.threads && HasItem(RunSection(s, me).t, k, c, x)
    ensures HasItem(s.t, k, c, x) || Brings(s, me, k, x)
  {
    if s.threads[me].Accepting? {
      var page, now := s.threads[me].page, s.threads[me].now;
      if PageKey(page) != k {
        AcceptTouchesOneKey(s.t, page, now, k);
      } else {
        AcceptItemsGrow(s.t, page, now, k);
        AcceptedItemComesFrom(s.t, page, now, c);
      }
    }
  }

  lemma AcceptedItemComesFrom(t: Tables, page: Page, now: Time, c: string)
    requires PageKey(page) in t.pending && Keyed(t.pending[PageKey(page)].items)
    requires var t' := Accept(t, page, now).0; PageKey(page) in t'.pending && c in t'.pending[PageKey(page)].items
    ensures var p := t.pending[PageKey(page)]; var x := Accept(t, page, now).0.pending[PageKey(page)].items[c];
      (c in p.items && p.items[c] == x) || (now < p.refresh.deadline && x in page.items)
  {
    MergeGrows(t.pending[PageKey(page)].items, page.items);
  }

  /** Every item of a pending refresh was brought by a page of it read before its deadline. */
  lemma {:induction false} PendingItemsCameInTime(events: seq<Event>)
    ensures ItemsInTime(events, Run(INITIAL, events))
  {
    if events != [] {
      var n := |events| - 1;
      var init, e := events[..n], events[n];
      PendingItemsCameInTime(init);
      InvRun(INITIAL, init);
      assert events == init + [e];
      var s := Run(INITIAL, init);
      var s' := Step(s, e);
      InvKeyed(s);
      forall k, c | k in s'.t.pending && c in s'.t.pending[k].items ensures Brought(events, k, s'.t.pending[k].items[c]) {
        var x := s'.t.pending[k].items[c];
        ItemComesFrom(s, e, k, c, x);
        if HasItem(s.t, k, c, x) {
          BroughtStays(init, e, k, x);
        } else {
          assert BroughtAt(events, n, e.thread, k, x);
        }
      }
    }
  }

  /** Main result. Nothing that came late is ever committed: every item of a replaced
      catalog was brought by a page of that refresh read before its deadline. */
  lemma {:induction false} CommittedItemsCameInTime(events: seq<Event>, i: nat, c: string)
    requires var s := Run(INITIAL, events); i < |s.replaced| && c in s.replaced[i].1
    ensures var s := Run(INITIAL, events); Brought(events, s.replaced[i].0, s.replaced[i].1[c])
  {
    var s := Run(INITIAL, events);
    ReplacementsBeginInTime(events);
    var k, items := s.replaced[i].0, s.replaced[i].1;
    var j: nat, me: nat :| BeganAt(events, j, me, k, items);
    BroughtWhereItBegan(events[..j + 1], me, c);
    BroughtInLonger(events, j + 1, k, items[c]);
  }

  lemma BroughtWhereItBegan(events: seq<Event>, me: nat, c: string)
    requires var s := Run(INITIAL, events); IsCommitting(s, me) && c in s.threads[me].items
    ensures var s := Run(INITIAL, events); Brought(events, s.threads[me].k, s.threads[me].items[c])
  {
    PendingItemsCameInTime(events);
    InvRun(INITIAL, events);
    CommittingHoldsItems(events, Run(INITIAL, events), me, c);
  }

  lemma CommittingHoldsItems(events: seq<Event>, s: System, me: nat, c: string)
    requires Inv(s) && ItemsInTime(events, s) && IsCommitting(s, me) && c in s.threads[me].items
    ensures Brought(events, s.threads[me].k, s.threads[me].items[c])
  {
    assert KeyOk(s, s.threads[me].k) && CommitsFor(s, me, s.threads[me].k);
  }

  lemma BroughtInLonger(events: seq<Event>, n: nat, k: Key, x: Item)
    requires n <= |events| && Brought(events[..n], k, x)
    ensures Brought(events, k, x)
  {
    var j: nat, me: nat :| BroughtAt(events[..n], j, me, k, x);
    assert events[..n][..j] == events[..j];
    assert BroughtAt(events, j, me, k, x);
  }
}
