/** The coordinator object: its three maps and the refreshes they point to are
    changed in place, one mutex section at a time. Each section is proved against
    its specification in CatalogModel. */
module CatalogCoordinator {
  import opened Prelude
  import opened CatalogModel
  import opened CatalogConcurrency

  class PendingRefresh {
    const id: nat
    const refresh: Refresh
    var items: map<string, Item>
    var staling: bool
    var committing: bool

    constructor (id: nat, refresh: Refresh)
      ensures View() == Pending(id, refresh, map[], false, false)
    {
      this.id, this.refresh := id, refresh;
      items, staling, committing := map[], false, false;
    }

    ghost function View(): Pending
      reads this
    {
      Pending(id, refresh, items, staling, committing)
    }
  }

  class Coordinator {
    var pending: map<Key, PendingRefresh>
    var completed: map<Key, Refresh>
    var stale: map<Key, Refresh>
    var nextID: nat
    ghost var created: set<PendingRefresh>

    /** Every refresh ever created has its own id, the pending ones serve different keys. */
    ghost predicate Valid()
      reads this, pending.Values
    {
      && pending.Values <= created
      && (forall p, q :: p in created && q in created && p.id == q.id ==> p == q)
      && (forall p :: p in created ==> p.id < nextID)
      && (forall j, k :: j in pending && k in pending && pending[j] == pending[k] ==> j == k)
      && (forall k :: k in pending ==> pending[k].refresh.Key() == k && Keyed(pending[k].items))
    }

    ghost function View(): Tables
      reads this, pending.Values
    {
      Tables(map k | k in pending :: pending[k].View(), completed, stale)
    }

    /** Writing to the one refresh pending under `k` changes that entry and no other. */
    twostate lemma OnlyOneChanged(k: Key)
      requires old(Valid()) && unchanged(this) && k in pending && Keyed(pending[k].items)
      requires forall p :: p in pending.Values && p != pending[k] ==> unchanged(p)
      ensures Valid() && View() == old(View()).(pending := old(View()).pending[k := pending[k].View()])
    {
      forall j | j in pending && j != k ensures unchanged(pending[j]) {
        assert pending[j] in pending.Values;
      }
      var t := old(View()).pending[k := pending[k].View()];
      assert forall j :: j in pending ==> pending[j].View() == t[j];
      assert View().pending == t;
    }

    twostate lemma OneRemoved(k: Key)
      requires old(Valid()) && pending == old(pending) - {k} && created == old(created) && nextID == old(nextID)
      requires forall q :: q in old(pending).Values ==> unchanged(q)
      ensures Valid() && View().pending == old(View()).pending - {k}
    {
      forall j | j in pending ensures pending[j] in created && unchanged(pending[j]) { assert old(pending)[j] in old(pending).Values; }
      assert forall p :: p in pending.Values ==> p in old(pending).Values;
    }

    twostate lemma OneInserted(k: Key, new p: PendingRefresh)
      requires old(Valid()) && k !in old(pending) && p.id == old(nextID)
      requires p.refresh.Key() == k && Keyed(p.items) && !old(allocated(p))
      requires pending == old(pending)[k := p] && created == old(created) + {p} && nextID == old(nextID) + 1
      requires completed == old(completed) && stale == old(stale)
      requires forall q :: q in old(pending).Values ==> unchanged(q)
      ensures Valid() && View() == old(View()).(pending := old(View()).pending[k := p.View()])
    {
      InsertedValid(k, p);
      InsertedView(k, p);
    }

    twostate lemma InsertedValid(k: Key, new p: PendingRefresh)
      requires old(Valid()) && k !in old(pending) && p.id == old(nextID)
      requires p.refresh.Key() == k && Keyed(p.items) && !old(allocated(p))
      requires pending == old(pending)[k := p] && created == old(created) + {p} && nextID == old(nextID) + 1
      requires forall q :: q in old(pending).Values ==> unchanged(q)
      ensures Valid()
    {
      forall j | j in old(pending) ensures pending[j] in created && pending[j] != p && unchanged(pending[j]) {
        assert old(pending)[j] in old(pending).Values;
      }
    }

    twostate lemma InsertedView(k: Key, new p: PendingRefresh)
      requires k !in old(pending) && pending == old(pending)[k := p] && completed == old(completed) && stale == old(stale)
      requires forall q :: q in old(pending).Values ==> unchanged(q)
      ensures View() == old(View()).(pending := old(View()).pending[k := p.View()])
    {
      forall j | j in old(pending) ensures unchanged(old(pending)[j]) { assert old(pending)[j] in old(pending).Values; }
      assert View().pending == old(View()).pending[k := p.View()];
    }

    constructor ()
      ensures Valid() && View() == EMPTY && fresh(created)
    {
      pending, completed, stale, nextID, created := map[], map[], map[], 0, {};
    }

    method LookUpSection(refresh: Refresh) returns (r: Lookup)
      requires Valid()
      ensures r == LookUp(View(), refresh)
    {
      var k := refresh.Key();
      if k in pending {
        var p := pending[k];
        if p.refresh.expected != refresh.expected { return Rejected(ErrInvalid); }
        return Known(p.refresh);
      }
      if k in stale { return Rejected(ErrDeadline); }
      if k in completed {
        var got := completed[k];
        if got.expected != refresh.expected { return Rejected(ErrInvalid); }
        return Known(got);
      }
      return CallStore;
    }

    method InstallSection(got: Refresh) returns (r: Refresh)
      requires Valid()
      modifies this
      ensures Valid() && (View(), r) == Install(old(View()), got, old(nextID))
      ensures fresh(pending.Values - old(pending.Values))
    {
      var k := got.Key();
      if k in pending {
        r := pending[k].refresh;
      } else if k in completed {
        r := completed[k];
      } else {
        var p := new PendingRefresh(nextID, got);
        pending := pending[k := p];
        nextID := nextID + 1;
        created := created + {p};
        r := got;
        OneInserted(k, p);
      }
    }

    /** The items of a full catalog, listed in any order and sorted in place. */
    static method ListItems(items: map<string, Item>) returns (s: seq<Item>)
      requires Keyed(items)
      ensures IsSnapshot(s, items)
    {
      s := [];
      var left := items.Keys;
      while left != {}
        invariant left <= items.Keys
        invariant IsSnapshot(s, items - left)
        decreases |left|
      {
        var c :| c in left;
        ghost var before := items - left;
        s := InsertSorted(s, items[c], before);
        left := left - {c};
        assert items - left == before[c := items[c]];
      }
      assert items - left == items;
    }

    static method InsertSorted(s: seq<Item>, item: Item, ghost items: map<string, Item>) returns (r: seq<Item>)
      requires Keyed(items) && IsSnapshot(s, items) && item.channelID !in items
      ensures IsSnapshot(r, items[item.channelID := item])
    {
      var i := 0;
      while i < |s| && Less(s[i].channelID, item.channelID)
        invariant 0 <= i <= |s|
        invariant forall j :: 0 <= j < i ==> Less(s[j].channelID, item.channelID)
      {
        i := i + 1;
      }
      forall j | i <= j < |s| ensures Less(item.channelID, s[j].channelID) {
        LessTotal(s[i].channelID, item.channelID);
        if i < j { LessTransitive(item.channelID, s[i].channelID, s[j].channelID); }
      }
      r := s[..i] + [item] + s[i..];
      SplicedIsSnapshot(s, item, items, i);
    }

    static lemma SplicedIsSnapshot(s: seq<Item>, item: Item, items: map<string, Item>, i: nat)
      requires Keyed(items) && IsSnapshot(s, items) && item.channelID !in items && i <= |s|
      requires forall j :: 0 <= j < i ==> Less(s[j].channelID, item.channelID)
      requires forall j :: i <= j < |s| ==> Less(item.channelID, s[j].channelID)
      ensures IsSnapshot(s[..i] + [item] + s[i..], items[item.channelID := item])
    {
      SplicedIsSorted(s, item, i);
      forall j | 0 <= j <= |s|
        ensures var x := (s[..i] + [item] + s[i..])[j]; x.channelID in items[item.channelID := item] && items[item.channelID := item][x.channelID] == x
      {
        Spliced(s, item, i, j);
      }
      var items' := items[item.channelID := item];
      forall c | c in items' ensures items'[c] in s[..i] + [item] + s[i..] {
        if c != item.channelID { assert items[c] in s; }
        SplicedHas(s, item, i, items'[c]);
      }
    }

    static lemma Spliced(s: seq<Item>, item: Item, i: nat, j: nat)
      requires i <= |s| && j <= |s|
      ensures (s[..i] + [item] + s[i..])[j] == if j < i then s[j] else if j == i then item else s[j - 1]
    {}

    static lemma SplicedHas(s: seq<Item>, item: Item, i: nat, x: Item)
      requires i <= |s| && (x == item || x in s)
      ensures x in s[..i] + [item] + s[i..]
    {
      assert s == s[..i] + s[i..];
    }

    static lemma SplicedIsSorted(s: seq<Item>, item: Item, i: nat)
      requires i <= |s| && forall j, l :: 0 <= j < l < |s| ==> Less(s[j].channelID, s[l].channelID)
      requires forall j :: 0 <= j < i ==> Less(s[j].channelID, item.channelID)
      requires forall j :: i <= j < |s| ==> Less(item.channelID, s[j].channelID)
      ensures var r := s[..i] + [item] + s[i..]; forall j, l :: 0 <= j < l < |r| ==> Less(r[j].channelID, r[l].channelID)
    {
      var r := s[..i] + [item] + s[i..];
      forall j, l | 0 <= j < l < |r| ensures Less(r[j].channelID, r[l].channelID) {
        Spliced(s, item, i, j);
        Spliced(s, item, i, l);
      }
    }

    method AcceptSection(page: Page, now: Time) returns (r: Accepted, snapshot: seq<Item>, p: PendingRefresh?)
      requires Valid()
      modifies pending.Values
      ensures Valid() && (View(), r) == Accept(old(View()), page, now)
      ensures r.BeginCommit? ==> IsSnapshot(snapshot, r.items) && p in created && p.id == r.id
      ensures r.BeginCommit? ==> StillCommitting(View(), CatalogKey(page.device, page.sn), r.id)
    {
      snapshot, p := [], null;
      var k := CatalogKey(page.device, page.sn);
      if k in completed { return Answer(PageResult(completed[k], true, true)), [], null; }
      if k !in pending { return Refuse(ErrStore), [], null; }
      var q := pending[k];
      if q.staling { return Refuse(ErrDeadline), [], null; }
      if q.committing { return Answer(PageResult(q.refresh, false, true)), [], null; }
      if now >= q.refresh.deadline {
        q.staling := true;
        OnlyOneChanged(k);
        return BeginStale(q.refresh), [], null;
      }
      ghost var known := q.items;
      var duplicate, conflict := MergePage(q, page.items);
      MergeGrows(known, page.items);
      OnlyOneChanged(k);
      if conflict { return Refuse(ErrDuplicateConflict), [], null; }
      if |q.items| > q.refresh.expected { return Refuse(ErrInvalid), [], null; }
      if |q.items| != q.refresh.expected { return Answer(PageResult(q.refresh, false, duplicate)), [], null; }
      snapshot := ListItems(q.items);
      q.committing := true;
      OnlyOneChanged(k);
      return BeginCommit(q.id, q.refresh, q.items, duplicate), snapshot, q;
    }

    /** The loop over a page's items: it writes into the pending refresh as it goes. */
    static method MergePage(p: PendingRefresh, page: seq<Item>) returns (duplicate: bool, conflict: bool)
      modifies p`items
      ensures var m := Merge(old(p.items), page);
        p.items == m.items && conflict == m.conflict && (!conflict ==> duplicate == m.duplicate)
    {
      duplicate := true;
      for i := 0 to |page|
        invariant Merge(old(p.items), page[..i]) == Merged(p.items, duplicate, false)
      {
        var item := page[i];
        assert page[..i + 1][..i] == page[..i];
        if item.channelID !in p.items {
          p.items := p.items[item.channelID := item];
          duplicate := false;
        } else if p.items[item.channelID] != item {
          MergeConflictStays(old(p.items), page, i + 1);
          return duplicate, true;
        }
      }
      assert page[..|page|] == page;
      return duplicate, false;
    }

    static lemma {:induction false} MergeConflictStays(known: map<string, Item>, page: seq<Item>, i: nat)
      requires i <= |page| && Merge(known, page[..i]).conflict
      ensures Merge(known, page) == Merge(known, page[..i])
    {
      if i == |page| {
        assert page[..i] == page;
      } else {
        var init := page[..|page| - 1];
        assert init[..i] == page[..i];
        MergeConflictStays(known, init, i);
      }
    }

    method CommitFailedSection(k: Key, p: PendingRefresh)
      requires Valid() && p in created
      modifies p
      ensures Valid() && View() == CommitFailed(old(View()), k, p.id)
    {
      if k in pending && pending[k] == p {
        p.committing := false;
        OnlyOneChanged(k);
      }
    }

    method CommitDoneSection(k: Key, p: PendingRefresh, got: Refresh) returns (ok: bool)
      requires Valid() && p in created
      modifies this
      ensures Valid() && (View(), ok) == CommitDone(old(View()), k, p.id, got)
      ensures created == old(created) && nextID == old(nextID)
    {
      if !(k in pending && pending[k] == p) || !p.committing { return false; }
      pending := pending - {k};
      completed := completed[k := got];
      assert View().pending == old(View()).pending - {k};
      return true;
    }

    method ExpireSection(k: Key, now: Time) returns (r: Expiry)
      requires Valid()
      modifies pending.Values
      ensures Valid() && (View(), r) == Expire(old(View()), k, now)
    {
      if k !in pending { return NothingToDo; }
      var p := pending[k];
      if now < p.refresh.deadline { return ExpireRefused(ErrInvalid); }
      if p.committing { return ExpireRefused(ErrInvalid); }
      if p.staling { return NothingToDo; }
      p.staling := true;
      OnlyOneChanged(k);
      return ExpireStale(p.refresh);
    }

    /** resetStaling, and the failure branch of markStale. */
    method StaleFailedSection(refresh: Refresh)
      requires Valid()
      modifies pending.Values
      ensures Valid() && View() == StaleFailed(old(View()), refresh)
    {
      var k := refresh.Key();
      if k in pending {
        pending[k].staling := false;
        OnlyOneChanged(k);
      }
    }

    method StaleDoneSection(refresh: Refresh)
      requires Valid()
      modifies this
      ensures Valid() && View() == StaleDone(old(View()), refresh)
      ensures created == old(created) && nextID == old(nextID)
    {
      pending := pending - {refresh.Key()};
      stale := stale[refresh.Key() := refresh];
      OneRemoved(refresh.Key());
    }

    /** start: look up, call the store if nothing is known, install. */
    method Start(asked: Refresh, io: StoreAnswers) returns (error: Option<Error>)
      requires Valid()
      modifies this
      ensures Valid() && (View(), error) == AfterStart(old(View()), old(nextID), asked, io)
      ensures fresh(pending.Values - old(pending.Values))
    {
      var found := LookUpSection(asked);
      match found
      case Known(_) => return None;
      case Rejected(e) => return Some(e);
      case CallStore =>
        if io.startError.Some? { return io.startError; }
        var _ := InstallSection(asked.(deadline := io.deadline));
        return None;
    }

    /** markStale, or the rest of AcceptPage after its main section. */
    method Conclude(k: Key, accepted: Accepted, p: PendingRefresh?, io: StoreAnswers) returns (r: Response)
      requires Valid()
      requires accepted.BeginCommit? ==>
        p != null && p in created && p.id == accepted.id && StillCommitting(View(), k, accepted.id)
      modifies this, pending.Values
      ensures Valid() && View() == Settle(old(View()), k, accepted, io)
      ensures r == Outcome(accepted, io)
    {
      match accepted
      case Answer(result) => return Response.Page(result);
      case Refuse(error) => return Fails(error);
      case BeginStale(refresh) =>
        if io.markError.Some? {
          StaleFailedSection(refresh);
          return Fails(io.markError.value);
        }
        StaleDoneSection(refresh);
        return Fails(ErrDeadline);
      case BeginCommit(_, refresh, _, duplicate) =>
        assert View().pending[k].id == pending[k].id;
        if io.replaceError.Some? {
          CommitFailedSection(k, p);
          return Fails(io.replaceError.value);
        }
        var done := CommitDoneSection(k, p, refresh);
        if !done { return Fails(ErrStore); }
        return Response.Page(PageResult(refresh, true, duplicate));
    }

    /** A whole call, with `io` saying how the store calls turn out. */
    method AcceptPage(page: Page, now: Time, io: StoreAnswers) returns (r: Response)
      requires Valid()
      modifies this, pending.Values
      ensures Valid() && View() == AfterAcceptPage(old(View()), old(nextID), page, now, io)
      ensures r == AcceptPageAnswer(old(View()), old(nextID), page, now, io)
    {
      var ok := CheckPage(page);
      if !ok { return Fails(ErrInvalid); }
      var error := Start(AskedBy(page, now), io);
      if error.Some? { return Fails(error.value); }
      ghost var ready := View();
      var accepted, snapshot, p := AcceptSection(page, now);
      assert (View(), accepted) == Accept(ready, page, now);
      r := Conclude(CatalogKey(page.device, page.sn), accepted, p, io);
    }
  }

  /** The machine, alone with one call, does the same sections in the same order. */
  lemma AloneReachesAccept(s: System, page: Page, now: Time, io: StoreAnswers)
    requires s.threads == map[]
    ensures AcceptPageAlone(s, 0, page, now, io).t == AfterAcceptPage(s.t, s.nextID, page, now, io)
  {
    if !ValidPage(page) { return; }
    var (ready, error) := AfterStart(s.t, s.nextID, AskedBy(page, now), io);
    AloneStarts(s, page, now, io);
    if error.None? {
      var s2 := Step(Step(s, CallPage(0, page, now)), StartRefreshReturns(0, io.startError.None?, io.deadline));
      var id := if s2.threads[0].Installing? then s.nextID + 1 else s.nextID;
      var s3 := System(ready, map[0 := Accepting(page, now)], id, s.replaced);
      AloneFinishes(s3, page, now, io);
    }
  }

  lemma AloneStarts(s: System, page: Page, now: Time, io: StoreAnswers)
    requires s.threads == map[] && ValidPage(page)
    ensures var (ready, error) := AfterStart(s.t, s.nextID, AskedBy(page, now), io);
      var s2 := Step(Step(s, CallPage(0, page, now)), StartRefreshReturns(0, io.startError.None?, io.deadline));
      if error.Some? then s2 == s
      else if 0 in s2.threads && s2.threads[0].Installing? then
        Step(s2, Section(0)) == System(ready, map[0 := Accepting(page, now)], s.nextID + 1, s.replaced)
      else
        s2 == System(ready, map[0 := Accepting(page, now)], s.nextID, s.replaced)
  {
    var asked := AskedBy(page, now);
    if LookUp(s.t, asked).CallStore? {
      var s1 := Step(s, CallPage(0, page, now));
      assert s1.threads == map[0 := StartRefreshing(asked, Some(page), now)];
      var s2 := Step(s1, StartRefreshReturns(0, io.startError.None?, io.deadline));
      if io.startError.None? {
        var k, got := asked.Key(), asked.(deadline := io.deadline);
        assert s2.threads == map[0 := Installing(got, Some(page), now)];
        assert k !in s2.t.pending && k in Install(s2.t, got, s.nextID).0.pending;
      } else {
        assert s2.threads == map[];
      }
    }
  }

  lemma AloneFinishes(s3: System, page: Page, now: Time, io: StoreAnswers)
    requires s3.threads == map[0 := Accepting(page, now)]
    ensures var s4 := Step(s3, Section(0)); var (t, r) := Accept(s3.t, page, now);
      && Step(s4, Section(0)) == s4
      && Step(Step(Step(s4, ReplaceReturns(0, io.replaceError.None?)), MarkStaleReturns(0, io.markError.None?)), Section(0)).t
         == Settle(t, CatalogKey(page.device, page.sn), r, io)
  {
    var (t, r) := Accept(s3.t, page, now);
    var s4 := Step(s3, Section(0));
    match r
    case BeginStale(refresh) =>
      assert s4 == System(t, map[0 := Staling(refresh, Calling)], s3.nextID, s3.replaced);
      SettleStale(s4, refresh, io);
    case BeginCommit(id, refresh, items, _) =>
      assert s4 == System(t, map[0 := Committing(CatalogKey(page.device, page.sn), id, refresh, items, Calling)], s3.nextID, s3.replaced);
      SettleCommit(s4, io);
    case _ =>
      assert s4 == System(t, map[], s3.nextID, s3.replaced);
  }

  lemma SettleStale(s4: System, refresh: Refresh, io: StoreAnswers)
    requires s4.threads == map[0 := Staling(refresh, Calling)]
    ensures Step(Step(Step(s4, ReplaceReturns(0, io.replaceError.None?)), MarkStaleReturns(0, io.markError.None?)), Section(0)).t
         == if io.markError.Some? then StaleFailed(s4.t, refresh) else StaleDone(s4.t, refresh)
  {}

  lemma SettleCommit(s4: System, io: StoreAnswers)
    requires s4.threads.Keys == {0} && s4.threads[0].Committing? && s4.threads[0].phase == Calling
    ensures var pc := s4.threads[0];
      Step(Step(Step(s4, ReplaceReturns(0, io.replaceError.None?)), MarkStaleReturns(0, io.markError.None?)), Section(0)).t
         == if io.replaceError.Some? then CommitFailed(s4.t, pc.k, pc.id) else CommitDone(s4.t, pc.k, pc.id, pc.refresh).0
  {}

  /** validPage: one pass with a map of the items seen so far. */
  method CheckPage(page: Page) returns (ok: bool)
    ensures ok == ValidPage(page)
  {
    if !ValidDeviceID(page.device) || page.sn <= 0 || page.sumNum < 0 || page.sumNum > MAX_ITEMS
       || |page.items| > MAX_ITEMS || |page.items| > page.sumNum {
      return false;
    }
    var seen: map<string, Item> := map[];
    for i := 0 to |page.items|
      invariant forall j :: 0 <= j < i ==> ValidItem(page.items[j])
      invariant forall j :: 0 <= j < i ==> page.items[j].channelID in seen && seen[page.items[j].channelID] == page.items[j]
      invariant forall c :: c in seen ==> exists j :: 0 <= j < i && page.items[j] == seen[c] && seen[c].channelID == c
    {
      var item := page.items[i];
      if !ValidDeviceID(item.channelID) || |item.name| == 0 || |item.name| > MAX_NAME_BYTES { return false; }
      if item.channelID in seen && seen[item.channelID] != item { return false; }
      seen := seen[item.channelID := item];
    }
    if page.sumNum == 0 { return |page.items| == 0; }
    return |page.items| > 0;
  }
}
