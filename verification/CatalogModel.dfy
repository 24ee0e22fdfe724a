/** The tables of the GB28181 catalog coordinator as values, and what each of its
    mutex sections does to them. The mutex is released around every store call,
    so a section, not a method call, is the atomic step. */
module CatalogModel {
  import opened Prelude

  type Time = int

  datatype Key = CatalogKey(device: string, sn: int)
  datatype Item = Item(channelID: string, name: string, online: bool)
  datatype Refresh = Refresh(device: string, sn: int, expected: int, deadline: Time) {
    function Key(): Key { CatalogKey(device, sn) }
  }
  datatype Page = Page(device: string, sn: int, sumNum: int, items: seq<Item>)
  datatype PageResult = PageResult(refresh: Refresh, complete: bool, duplicate: bool)
  datatype Error = ErrInvalid | ErrDeadline | ErrDuplicateConflict | ErrStore

  const MAX_ITEMS := 1000
  const MAX_NAME_BYTES := 128

  /** `id` stands for the address of the object: no two objects share one. */
  datatype Pending = Pending(id: nat, refresh: Refresh, items: map<string, Item>, staling: bool, committing: bool)
  datatype Tables = Tables(pending: map<Key, Pending>, completed: map<Key, Refresh>, stale: map<Key, Refresh>)

  const EMPTY := Tables(map[], map[], map[])

  // ----- validation

  predicate ValidDeviceID(s: string) {
    |s| == 20 && forall i :: 0 <= i < |s| ==> '0' <= s[i] <= '9'
  }

  predicate ValidItem(item: Item) {
    ValidDeviceID(item.channelID) && 0 < |item.name| <= MAX_NAME_BYTES
  }

  /** No two items give one channel different contents. */
  predicate Consistent(items: seq<Item>) {
    forall i, j :: 0 <= i < j < |items| && items[i].channelID == items[j].channelID ==> items[i] == items[j]
  }

  predicate ValidPage(page: Page) {
    && ValidDeviceID(page.device) && page.sn > 0 && 0 <= page.sumNum <= MAX_ITEMS
    && |page.items| <= page.sumNum
    && (forall i :: 0 <= i < |page.items| ==> ValidItem(page.items[i]))
    && Consistent(page.items)
    && (page.items == [] <==> page.sumNum == 0)
  }

  // ----- merging a page

  datatype Merged = Merged(items: map<string, Item>, duplicate: bool, conflict: bool)

  /** Items are taken in page order; the first one that contradicts what is known stops the merge. */
  function Merge(known: map<string, Item>, page: seq<Item>): Merged {
    if page == [] then Merged(known, true, false)
    else
      var before, item := Merge(known, page[..|page| - 1]), page[|page| - 1];
      if before.conflict then before
      else if item.channelID !in before.items then Merged(before.items[item.channelID := item], false, false)
      else before.(conflict := before.items[item.channelID] != item)
  }

  ghost predicate Keyed(items: map<string, Item>) {
    forall c :: c in items ==> items[c].channelID == c
  }

  /** `s` lists exactly the items of `items`, each once, by strictly increasing channel. */
  ghost predicate IsSnapshot(s: seq<Item>, items: map<string, Item>) {
    && (forall i, j :: 0 <= i < j < |s| ==> Less(s[i].channelID, s[j].channelID))
    && (forall i :: 0 <= i < |s| ==> s[i].channelID in items && items[s[i].channelID] == s[i])
    && (forall c :: c in items ==> items[c] in s)
  }

  // ----- mutex sections

  datatype Lookup = Known(refresh: Refresh) | Rejected(error: Error) | CallStore

  /** First section of start: what is already known about the refresh. */
  function LookUp(t: Tables, refresh: Refresh): Lookup {
    var k := refresh.Key();
    if k in t.pending then
      if t.pending[k].refresh.expected != refresh.expected then Rejected(ErrInvalid) else Known(t.pending[k].refresh)
    else if k in t.stale then Rejected(ErrDeadline)
    else if k in t.completed then
      if t.completed[k].expected != refresh.expected then Rejected(ErrInvalid) else Known(t.completed[k])
    else CallStore
  }

  /** Second section of start: `got` came back from StartRefresh. It looks at
      `pending` and `completed` only. `id` names the object allocated if one is. */
  function Install(t: Tables, got: Refresh, id: nat): (Tables, Refresh) {
    var k := got.Key();
    if k in t.pending then (t, t.pending[k].refresh)
    else if k in t.completed then (t, t.completed[k])
    else (t.(pending := t.pending[k := Pending(id, got, map[], false, false)]), got)
  }

  datatype Accepted =
    | Answer(result: PageResult)
    | Refuse(error: Error)
    | BeginStale(refresh: Refresh)
    | BeginCommit(id: nat, refresh: Refresh, items: map<string, Item>, duplicate: bool)

  /** Main section of AcceptPage. */
  function Accept(t: Tables, page: Page, now: Time): (Tables, Accepted) {
    var k := CatalogKey(page.device, page.sn);
    if k in t.completed then (t, Answer(PageResult(t.completed[k], true, true)))
    else if k !in t.pending then (t, Refuse(ErrStore))
    else
      var p := t.pending[k];
      if p.staling then (t, Refuse(ErrDeadline))
      else if p.committing then (t, Answer(PageResult(p.refresh, false, true)))
      else if now >= p.refresh.deadline then
        (t.(pending := t.pending[k := p.(staling := true)]), BeginStale(p.refresh))
      else
        var m := Merge(p.items, page.items);
        var p' := p.(items := m.items);
        if m.conflict then (t.(pending := t.pending[k := p']), Refuse(ErrDuplicateConflict))
        else if |m.items| > p.refresh.expected then (t.(pending := t.pending[k := p']), Refuse(ErrInvalid))
        else if |m.items| != p.refresh.expected then
          (t.(pending := t.pending[k := p']), Answer(PageResult(p.refresh, false, m.duplicate)))
        else
          (t.(pending := t.pending[k := p'.(committing := true)]), BeginCommit(p.id, p.refresh, m.items, m.duplicate))
  }

  /** Section after a failed commit: only the same object loses its flag. */
  function CommitFailed(t: Tables, k: Key, id: nat): Tables {
    if k in t.pending && t.pending[k].id == id
    then t.(pending := t.pending[k := t.pending[k].(committing := false)])
    else t
  }

  predicate StillCommitting(t: Tables, k: Key, id: nat) {
    k in t.pending && t.pending[k].id == id && t.pending[k].committing
  }

  /** Section after a successful ReplaceCatalog; false is the ErrStore answer. */
  function CommitDone(t: Tables, k: Key, id: nat, got: Refresh): (Tables, bool) {
    if StillCommitting(t, k, id)
    then (t.(pending := t.pending - {k}, completed := t.completed[k := got]), true)
    else (t, false)
  }

  datatype Expiry = NothingToDo | ExpireRefused(error: Error) | ExpireStale(refresh: Refresh)

  /** Section of Expire. */
  function Expire(t: Tables, k: Key, now: Time): (Tables, Expiry) {
    if k !in t.pending then (t, NothingToDo)
    else
      var p := t.pending[k];
      if now < p.refresh.deadline || p.committing then (t, ExpireRefused(ErrInvalid))
      else if p.staling then (t, NothingToDo)
      else (t.(pending := t.pending[k := p.(staling := true)]), ExpireStale(p.refresh))
  }

  /** Section after a failed MarkStale: whatever is pending under the key loses its flag. */
  function StaleFailed(t: Tables, refresh: Refresh): Tables {
    var k := refresh.Key();
    if k in t.pending then t.(pending := t.pending[k := t.pending[k].(staling := false)]) else t
  }

  /** Section after a successful MarkStale: no check of who is pending. */
  function StaleDone(t: Tables, refresh: Refresh): Tables {
    t.(pending := t.pending - {refresh.Key()}, stale := t.stale[refresh.Key() := refresh])
  }

  // ----- what merging means

  /** The first position whose item contradicts `known` or an earlier item of the page. */
  ghost predicate Contradicts(known: map<string, Item>, page: seq<Item>, i: nat)
    requires i < |page|
  {
    || (page[i].channelID in known && known[page[i].channelID] != page[i])
    || (page[i].channelID !in known && exists j :: 0 <= j < i && page[j].channelID == page[i].channelID && page[j] != page[i])
  }

  ghost predicate Clean(known: map<string, Item>, page: seq<Item>) {
    forall i :: 0 <= i < |page| ==> !Contradicts(known, page, i)
  }

  /** Merging never changes or drops what was known, and adds items of the page only. */
  lemma {:induction false} MergeGrows(known: map<string, Item>, page: seq<Item>)
    requires Keyed(known)
    ensures var m := Merge(known, page);
      && Keyed(m.items)
      && (forall c :: c in known ==> c in m.items && m.items[c] == known[c])
      && (forall c :: c in m.items && c !in known ==> m.items[c] in page)
  {
    if page != [] { MergeGrows(known, page[..|page| - 1]); }
  }

  /** A merge that is not stopped holds every item of the page; it reports a
      duplicate exactly when nothing was new. */
  lemma {:induction false} MergeHolds(known: map<string, Item>, page: seq<Item>)
    requires Keyed(known) && !Merge(known, page).conflict
    ensures var m := Merge(known, page);
      && (forall i :: 0 <= i < |page| ==> page[i].channelID in m.items && m.items[page[i].channelID] == page[i])
      && (m.duplicate <==> m.items == known)
  {
    if page != [] {
      var init := page[..|page| - 1];
      MergeGrows(known, init);
      MergeHolds(known, init);
      assert forall i :: 0 <= i < |init| ==> init[i] == page[i];
      var before, c := Merge(known, init).items, page[|page| - 1].channelID;
      if c !in before { assert c in Merge(known, page).items && c !in known; }
    }
  }

  /** A merge succeeds exactly on pages without contradiction. */
  lemma {:induction false} MergeSucceedsIffClean(known: map<string, Item>, page: seq<Item>)
    requires Keyed(known)
    ensures Merge(known, page).conflict <==> !Clean(known, page)
  {
    if page != [] {
      var n, init := |page| - 1, page[..|page| - 1];
      MergeSucceedsIffClean(known, init);
      assert forall i :: 0 <= i < n ==> init[i] == page[i];
      assert forall i :: 0 <= i < n ==> (Contradicts(known, init, i) <==> Contradicts(known, page, i));
      assert Clean(known, page) <==> Clean(known, init) && !Contradicts(known, page, n);
      if Clean(known, init) {
        var c := page[n].channelID;
        MergeGrows(known, init);
        MergeHolds(known, init);
        var before := Merge(known, init).items;
        if c in before && c !in known {
          var j :| 0 <= j < n && init[j] == before[c];
          assert before[c] != page[n] ==> page[j].channelID == c && page[j] != page[n];
        }
      }
    }
  }

  /** A page stopped by a contradiction at `i` keeps everything merged before it,
      so it changes nothing exactly when all earlier items were already known. */
  lemma RejectedPageEffect(known: map<string, Item>, page: seq<Item>, i: nat)
    requires Keyed(known) && i < |page|
    requires Contradicts(known, page, i) && Clean(known, page[..i])
    ensures Merge(known, page).conflict
    ensures Merge(known, page).items == Merge(known, page[..i]).items
    ensures Merge(known, page).items == known <==> forall j :: 0 <= j < i ==> page[j].channelID in known
  {
    var head := page[..i];
    MergeStops(known, page, i);
    MergeSucceedsIffClean(known, head);
    MergeGrows(known, head);
    MergeHolds(known, head);
    var m := Merge(known, head);
    assert forall j :: 0 <= j < i ==> head[j] == page[j];
    if forall j :: 0 <= j < i ==> page[j].channelID in known {
      assert forall c :: c in m.items && c !in known ==> m.items[c] in head && m.items[c].channelID == c;
      assert m.items == known;
    } else {
      var j :| 0 <= j < i && page[j].channelID !in known;
      assert head[j].channelID in m.items;
    }
  }

  /** The refresh is pending, nobody is in the store for it, and its deadline has not come. */
  ghost predicate Collecting(t: Tables, k: Key, now: Time) {
    && k in t.pending && k !in t.completed && Keyed(t.pending[k].items)
    && !t.pending[k].staling && !t.pending[k].committing && now < t.pending[k].refresh.deadline
  }

  /** A page refused because its refresh then has more items than announced stays merged. */
  lemma TooManyKeepsPage(t: Tables, page: Page, now: Time)
    requires Collecting(t, CatalogKey(page.device, page.sn), now)
    ensures var k := CatalogKey(page.device, page.sn); var p := t.pending[k]; var (after, r) := Accept(t, page, now);
      (r == Refuse(ErrInvalid) <==> Clean(p.items, page.items) && |Merge(p.items, page.items).items| > p.refresh.expected)
      && (r == Refuse(ErrInvalid) ==>
        && k in after.pending && |after.pending[k].items| > p.refresh.expected
        && (forall c :: c in p.items ==> c in after.pending[k].items && after.pending[k].items[c] == p.items[c])
        && forall i :: 0 <= i < |page.items| ==> page.items[i].channelID in after.pending[k].items && after.pending[k].items[page.items[i].channelID] == page.items[i])
  {
    var p := t.pending[CatalogKey(page.device, page.sn)];
    MergeSucceedsIffClean(p.items, page.items);
    MergeGrows(p.items, page.items);
    if !Merge(p.items, page.items).conflict { MergeHolds(p.items, page.items); }
  }

  lemma {:induction false} MergeSize(known: map<string, Item>, page: seq<Item>)
    ensures |Merge(known, page).items| >= |known|
  {
    if page != [] {
      var before, item := Merge(known, page[..|page| - 1]), page[|page| - 1];
      MergeSize(known, page[..|page| - 1]);
      if !before.conflict && item.channelID !in before.items {
        assert before.items[item.channelID := item].Keys == before.items.Keys + {item.channelID};
        assert |before.items[item.channelID := item].Keys| == |before.items.Keys| + 1;
      }
    }
  }

  lemma {:induction false} MergeStops(known: map<string, Item>, page: seq<Item>, i: nat)
    requires Keyed(known) && i < |page|
    requires Contradicts(known, page, i) && Clean(known, page[..i])
    ensures Merge(known, page).conflict && Merge(known, page).items == Merge(known, page[..i]).items
  {
    if i == |page| - 1 {
      assert !Clean(known, page);
      MergeSucceedsIffClean(known, page);
      MergeSucceedsIffClean(known, page[..i]);
    } else {
      var init := page[..|page| - 1];
      assert init[..i] == page[..i];
      assert Contradicts(known, init, i);
      MergeStops(known, init, i);
    }
  }

  /** The order of Go's map iteration cannot show: a catalog has one snapshot only. */
  lemma {:induction false} SnapshotUnique(a: seq<Item>, b: seq<Item>, items: map<string, Item>)
    requires Keyed(items) && IsSnapshot(a, items) && IsSnapshot(b, items)
    ensures a == b
  {
    assert a != [] ==> items[a[0].channelID] in b;
    assert b != [] ==> items[b[0].channelID] in a;
    if a != [] && b != [] {
      assert a[0] == b[0] by {
        assert items[a[0].channelID] in b && items[b[0].channelID] in a;
        if a[0] != b[0] {
          assert Less(b[0].channelID, a[0].channelID);
          assert Less(a[0].channelID, b[0].channelID);
          LessAsymmetric(a[0].channelID, b[0].channelID);
        }
      }
      var c := a[0].channelID;
      var rest := items - {c};
      SnapshotTail(a, items);
      SnapshotTail(b, items);
      SnapshotUnique(a[1..], b[1..], rest);
      assert a == [a[0]] + a[1..] && b == [b[0]] + b[1..];
    }
  }

  lemma SnapshotTail(a: seq<Item>, items: map<string, Item>)
    requires Keyed(items) && IsSnapshot(a, items) && a != []
    ensures IsSnapshot(a[1..], items - {a[0].channelID})
  {
    var c := a[0].channelID;
    forall i | 1 <= i < |a| ensures a[i].channelID != c {
      LessAsymmetric(a[0].channelID, a[i].channelID);
    }
    forall d | d in items - {c} ensures (items - {c})[d] in a[1..] {
      assert items[d] in a;
      var i :| 0 <= i < |a| && a[i] == items[d];
      assert a[0] != items[d];
      assert a[i] == a[1..][i - 1];
    }
  }
}
