/** What a device's pages add up to when they reach the coordinator one after the
    other before the deadline and the store works: whatever their order and however
    often they are repeated, the committed catalog is their union. */
module CatalogPages {
  import opened Prelude
  import opened CatalogModel
  import opened CatalogConcurrency

  function Concat(pages: seq<Page>): seq<Item> {
    if pages == [] then [] else Concat(pages[..|pages| - 1]) + pages[|pages| - 1].items
  }

  /** The channels of all pages. */
  function Union(pages: seq<Page>): map<string, Item> { Merge(map[], Concat(pages)).items }

  ghost predicate PagesOf(r: Refresh, pages: seq<Page>) {
    && Consistent(Concat(pages))
    && (forall i :: 0 <= i < |pages| ==>
          ValidPage(pages[i]) && pages[i].device == r.device && pages[i].sn == r.sn && pages[i].sumNum == r.expected)
  }

  function Feed(s: System, me: nat, pages: seq<Page>, times: seq<Time>, deadline: Time): System
    requires |pages| == |times|
  {
    if pages == [] then s
    else
      var n := |pages| - 1;
      AcceptPageAlone(Feed(s, me, pages[..n], times[..n], deadline), me, pages[n], times[n],
                      StoreAnswers(None, deadline, None, None))
  }

  lemma {:induction false} MergeTwice(known: map<string, Item>, a: seq<Item>, b: seq<Item>)
    requires !Merge(known, a + b).conflict
    ensures !Merge(known, a).conflict && !Merge(Merge(known, a).items, b).conflict
    ensures Merge(known, a + b).items == Merge(Merge(known, a).items, b).items
  {
    if b == [] {
      assert a + b == a;
    } else {
      assert (a + b)[..|a + b| - 1] == a + b[..|b| - 1];
      MergeTwice(known, a, b[..|b| - 1]);
    }
  }

  /** Consistent pages never contradict each other; their union is exactly their items. */
  lemma UnionMeaning(pages: seq<Page>)
    requires Consistent(Concat(pages))
    ensures !Merge(map[], Concat(pages)).conflict && Keyed(Union(pages))
    ensures forall i :: 0 <= i < |Concat(pages)| ==> var x := Concat(pages)[i]; x.channelID in Union(pages) && Union(pages)[x.channelID] == x
    ensures forall c :: c in Union(pages) ==> Union(pages)[c] in Concat(pages)
  {
    var none: map<string, Item> := map[];
    MergeSucceedsIffClean(none, Concat(pages));
    MergeGrows(none, Concat(pages));
    MergeHolds(none, Concat(pages));
  }

  lemma UnionGrows(pages: seq<Page>)
    requires pages != [] && Consistent(Concat(pages))
    ensures var init, last := pages[..|pages| - 1], pages[|pages| - 1];
      && Consistent(Concat(init))
      && Union(pages) == Merge(Union(init), last.items).items && !Merge(Union(init), last.items).conflict
      && Union(init).Keys <= Union(pages).Keys
      && (forall c :: c in Union(init) ==> Union(pages)[c] == Union(init)[c])
      && |Union(init)| <= |Union(pages)|
      && (|Union(init)| == |Union(pages)| ==> Union(init) == Union(pages))
  {
    var init, last := pages[..|pages| - 1], pages[|pages| - 1];
    assert forall i :: 0 <= i < |Concat(init)| ==> Concat(init)[i] == Concat(pages)[i];
    UnionMeaning(pages);
    UnionMeaning(init);
    MergeTwice(map[], Concat(init), last.items);
    MergeGrows(Union(init), last.items);
    SmallerKeys(Union(init), Union(pages));
  }

  lemma SmallerKeys(a: map<string, Item>, b: map<string, Item>)
    requires forall c :: c in a ==> c in b && a[c] == b[c]
    ensures |a| <= |b| && (|a| == |b| ==> a == b)
  {
    var rest := b.Keys - a.Keys;
    assert b.Keys == a.Keys + rest;
    assert |b.Keys| == |a.Keys| + |rest|;
    assert |a| == |b| ==> rest == {};
  }

  ghost predicate Unknown(s: System, k: Key) {
    k !in s.t.pending && k !in s.t.completed && k !in s.t.stale
  }

  /** The state between two pages: collecting their union so far, or committed. */
  ghost predicate Collected(s: System, s': System, me: nat, r: Refresh, pages: seq<Page>) {
    var k := r.Key();
    && me !in s'.threads
    && if |Union(pages)| < r.expected then
         && k in s'.t.pending && k !in s'.t.completed && k !in s'.t.stale
         && s'.replaced == s.replaced
         && s'.t.pending[k].refresh == r && s'.t.pending[k].items == Union(pages)
         && !s'.t.pending[k].staling && !s'.t.pending[k].committing
       else
         && k !in s'.t.pending && k !in s'.t.stale && k in s'.t.completed && s'.t.completed[k] == r
         && s'.replaced == s.replaced + [(k, Union(pages))]
  }

  /** The first page finds nothing and opens the refresh. */
  lemma OpenedByPage(s: System, me: nat, r: Refresh, page: Page, now: Time)
    requires Unknown(s, r.Key()) && me !in s.threads && ValidPage(page)
    requires page.device == r.device && page.sn == r.sn && page.sumNum == r.expected
    ensures var s3 := Step(Step(Step(s, CallPage(me, page, now)), StartRefreshReturns(me, true, r.deadline)), Section(me));
      s3 == System(s.t.(pending := s.t.pending[r.Key() := Pending(s.nextID, r, map[], false, false)]),
                   s.threads[me := Accepting(page, now)], s.nextID + 1, s.replaced)
  {
    var asked := Refresh(page.device, page.sn, page.sumNum, now + REFRESH_TIMEOUT);
    var s1 := Step(s, CallPage(me, page, now));
    assert s1 == s.(threads := s.threads[me := StartRefreshing(asked, Some(page), now)]);
    var s2 := Step(s1, StartRefreshReturns(me, true, r.deadline));
    assert s2 == s.(threads := s.threads[me := Installing(r, Some(page), now)]);
    var s3 := Step(s2, Section(me));
    assert s3.t != s2.t by { assert r.Key() in s3.t.pending; }
    assert s2.threads[me := Accepting(page, now)] == s.threads[me := Accepting(page, now)];
  }

  lemma FirstPage(s: System, me: nat, r: Refresh, page: Page, now: Time)
    requires Unknown(s, r.Key()) && me !in s.threads && PagesOf(r, [page]) && now < r.deadline
    requires |Union([page])| <= r.expected
    ensures Collected(s, AcceptPageAlone(s, me, page, now, StoreAnswers(None, r.deadline, None, None)), me, r, [page])
  {
    UnionMeaning([page]);
    assert [page][..0] == [] && Concat([page]) == [] + page.items == page.items;
    OpenedByPage(s, me, r, page, now);
    var s3 := Step(Step(Step(s, CallPage(me, page, now)), StartRefreshReturns(me, true, r.deadline)), Section(me));
    AcceptOnOpen(s3, me, r, page, now, map[], None);
  }

  /** The rest of the call once the refresh is open and the goroutine is at the main section. */
  lemma AcceptOnOpen(s3: System, me: nat, r: Refresh, page: Page, now: Time, known: map<string, Item>, markError: Option<Error>)
    requires me in s3.threads && s3.threads[me] == Accepting(page, now)
    requires r.Key() == CatalogKey(page.device, page.sn) && now < r.deadline
    requires var k := r.Key();
      k in s3.t.pending && k !in s3.t.completed && k !in s3.t.stale
      && s3.t.pending[k].refresh == r && s3.t.pending[k].items == known
      && !s3.t.pending[k].staling && !s3.t.pending[k].committing
    requires var m := Merge(known, page.items); !m.conflict && |m.items| <= r.expected
    ensures var s4 := Step(Step(Step(Step(s3, Section(me)), ReplaceReturns(me, true)), MarkStaleReturns(me, markError.None?)), Section(me));
      var m, k := Merge(known, page.items).items, r.Key();
      && me !in s4.threads
      && if |m| < r.expected then
           && k in s4.t.pending && k !in s4.t.completed && k !in s4.t.stale && s4.replaced == s3.replaced
           && s4.t.pending[k].refresh == r && s4.t.pending[k].items == m
           && !s4.t.pending[k].staling && !s4.t.pending[k].committing
         else
           && k !in s4.t.pending && k !in s4.t.stale && k in s4.t.completed && s4.t.completed[k] == r
           && s4.replaced == s3.replaced + [(k, m)]
  {
    var k, m := r.Key(), Merge(known, page.items);
    var s4 := Step(s3, Section(me));
    if |m.items| < r.expected {
      assert me !in s4.threads;
    } else {
      var p := s3.t.pending[k].(items := m.items, committing := true);
      assert s4.t.pending[k] == p;
      assert s4.threads[me] == Committing(k, p.id, r, m.items, Calling);
      var s5 := Step(s4, ReplaceReturns(me, true));
      assert s5.threads[me] == Committing(k, p.id, r, m.items, Succeeded) && s5.t == s4.t;
      assert Step(s5, MarkStaleReturns(me, markError.None?)) == s5;
      assert s5.replaced == s3.replaced + [(k, m.items)];
    }
  }

  /** A later page goes straight to the main section. */
  lemma KnownPage(s: System, me: nat, r: Refresh, page: Page, now: Time)
    requires me !in s.threads && ValidPage(page) && r.Key() !in s.t.stale
    requires page.device == r.device && page.sn == r.sn && page.sumNum == r.expected
    requires (r.Key() in s.t.pending && s.t.pending[r.Key()].refresh == r)
          || (r.Key() !in s.t.pending && r.Key() in s.t.completed && s.t.completed[r.Key()] == r)
    ensures Step(Step(s, CallPage(me, page, now)), StartRefreshReturns(me, true, r.deadline))
         == s.(threads := s.threads[me := Accepting(page, now)])
  {}

  lemma PageWhileOpen(s: System, me: nat, r: Refresh, page: Page, now: Time, known: map<string, Item>)
    requires me !in s.threads && ValidPage(page) && now < r.deadline
    requires page.device == r.device && page.sn == r.sn && page.sumNum == r.expected
    requires var k := r.Key();
      k in s.t.pending && k !in s.t.completed && k !in s.t.stale
      && s.t.pending[k].refresh == r && s.t.pending[k].items == known
      && !s.t.pending[k].staling && !s.t.pending[k].committing
    requires var m := Merge(known, page.items); !m.conflict && |m.items| <= r.expected
    ensures var s2 := s.(threads := s.threads[me := Accepting(page, now)]);
      AcceptPageAlone(s, me, page, now, StoreAnswers(None, r.deadline, None, None))
      == Step(Step(Step(Step(s2, Section(me)), ReplaceReturns(me, true)), MarkStaleReturns(me, true)), Section(me))
  {
    KnownPage(s, me, r, page, now);
    var s2 := s.(threads := s.threads[me := Accepting(page, now)]);
    var s3 := Step(s2, Section(me));
    assert Step(s3, Section(me)) == s3;
  }

  lemma PageAfterCommit(s: System, me: nat, r: Refresh, page: Page, now: Time)
    requires me !in s.threads && ValidPage(page)
    requires page.device == r.device && page.sn == r.sn && page.sumNum == r.expected
    requires var k := r.Key(); k !in s.t.pending && k !in s.t.stale && k in s.t.completed && s.t.completed[k] == r
    ensures AcceptPageAlone(s, me, page, now, StoreAnswers(None, r.deadline, None, None)) == s
  {
    KnownPage(s, me, r, page, now);
    var s2 := s.(threads := s.threads[me := Accepting(page, now)]);
    assert s2.threads - {me} == s.threads;
    assert Step(s2, Section(me)) == s;
    CallsByAbsentThread(s, me, r.deadline);
  }

  lemma LaterPage(s: System, s1: System, me: nat, r: Refresh, pages: seq<Page>, now: Time)
    requires |pages| > 1 && PagesOf(r, pages) && me !in s.threads && now < r.deadline
    requires |Union(pages)| <= r.expected
    requires Collected(s, s1, me, r, pages[..|pages| - 1])
    ensures Collected(s, AcceptPageAlone(s1, me, pages[|pages| - 1], now, StoreAnswers(None, r.deadline, None, None)), me, r, pages)
  {
    UnionGrows(pages);
    var init, page := pages[..|pages| - 1], pages[|pages| - 1];
    if |Union(init)| < r.expected {
      PageWhileOpen(s1, me, r, page, now, Union(init));
      AcceptOnOpen(s1.(threads := s1.threads[me := Accepting(page, now)]), me, r, page, now, Union(init), None);
    } else {
      PageAfterCommit(s1, me, r, page, now);
    }
  }

  lemma CallsByAbsentThread(s: System, me: nat, deadline: Time)
    requires me !in s.threads
    ensures Step(s, Section(me)) == s && Step(s, ReplaceReturns(me, true)) == s && Step(s, MarkStaleReturns(me, true)) == s
  {}

  lemma {:induction false} FeedCollects(s: System, me: nat, r: Refresh, pages: seq<Page>, times: seq<Time>)
    requires Unknown(s, r.Key()) && me !in s.threads
    requires pages != [] && |times| == |pages| && PagesOf(r, pages) && |Union(pages)| <= r.expected
    requires forall i :: 0 <= i < |times| ==> times[i] < r.deadline
    ensures Collected(s, Feed(s, me, pages, times, r.deadline), me, r, pages)
  {
    var n := |pages| - 1;
    UnionGrows(pages);
    if n == 0 {
      assert pages == [pages[0]] && pages[..0] == [];
      FirstPage(s, me, r, pages[0], times[0]);
    } else {
      FeedCollects(s, me, r, pages[..n], times[..n]);
      LaterPage(s, Feed(s, me, pages[..n], times[..n], r.deadline), me, r, pages, times[n]);
    }
  }

  /** Main result. Valid pages of one refresh that agree with each other, in any
      order and with any repetition, all before the deadline, with a working store:
      the catalog is replaced exactly if their channels reach the announced number,
      once, with a snapshot that lists exactly the pages' items by strictly
      increasing channel, and the refresh is then completed. */
  lemma PagesCommitTheirUnion(s: System, me: nat, r: Refresh, pages: seq<Page>, times: seq<Time>)
    requires Unknown(s, r.Key()) && me !in s.threads
    requires pages != [] && |times| == |pages| && PagesOf(r, pages) && |Union(pages)| <= r.expected
    requires forall i :: 0 <= i < |times| ==> times[i] < r.deadline
    ensures var s' := Feed(s, me, pages, times, r.deadline); var k := r.Key();
      && (k in s'.t.completed <==> |Union(pages)| == r.expected)
      && (k in s'.t.completed ==> s'.t.completed[k] == r && s'.replaced == s.replaced + [(k, Union(pages))])
      && (k !in s'.t.completed ==> s'.replaced == s.replaced)
    ensures forall list, x :: IsSnapshot(list, Union(pages)) ==> (x in list <==> x in Concat(pages))
  {
    FeedCollects(s, me, r, pages, times);
    UnionMeaning(pages);
    forall list, x | IsSnapshot(list, Union(pages)) ensures x in list <==> x in Concat(pages) {
      if x in list {
        var i :| 0 <= i < |list| && list[i] == x;
        assert Union(pages)[x.channelID] in Concat(pages);
      }
      if x in Concat(pages) {
        var i :| 0 <= i < |Concat(pages)| && Concat(pages)[i] == x;
        assert Union(pages)[x.channelID] == x;
        assert Union(pages)[x.channelID] in list;
      }
    }
  }
}
