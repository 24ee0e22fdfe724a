/** The device shadow: for every metric the newest value of the device's present pond and
    product, however the reports arrive. Two upserts keep it, one for water products and one
    for generic ones; they differ in the timestamp and the signal column of the row. */
module Shadow {
  import opened Prelude

  /** The text of a value. */
  type Value = string

  /** Which of the two upserts takes the report. */
  datatype Kind = Water | Generic

  datatype Report = Report(kind: Kind, ts: int, values: map<string, Value>, pond: int, product: int, tenant: int, model: int)

  /** Pond and product are None where the column is null. `signal` is the text of the value
      the signal column was computed from. */
  datatype Row = Row(values: map<string, Value>, stamps: map<string, int>, ts: int, signal: Option<Value>,
                     pond: Option<int>, product: Option<int>, tenant: int, model: int)

  predicate SameScope(row: Option<Row>, r: Report) {
    row.Some? && row.value.pond == Some(r.pond) && row.value.product == Some(r.product)
  }

  /** The report's value for the metric is not older than what the shadow has. */
  predicate Takes(stamps: map<string, int>, r: Report, k: string) {
    k in r.values && (k in stamps ==> stamps[k] <= r.ts)
  }

  function Values(values: map<string, Value>, stamps: map<string, int>, r: Report): map<string, Value> {
    map k | k in values.Keys + r.values.Keys && (k in values || Takes(stamps, r, k)) :: if Takes(stamps, r, k) then r.values[k] else values[k]
  }

  function Stamps(stamps: map<string, int>, r: Report): map<string, int> {
    map k | k in stamps.Keys + r.values.Keys :: if Takes(stamps, r, k) then r.ts else stamps[k]
  }

  function Max(a: int, b: int): int { if a < b then b else a }

  function SignalOf(values: map<string, Value>): Option<Value> {
    if "signal" in values then Some(values["signal"]) else None
  }

  function Upsert(row: Option<Row>, r: Report): Row {
    var same := SameScope(row, r);
    var values, stamps := if same then row.value.values else map[], if same then row.value.stamps else map[];
    Row(Values(values, stamps, r), Stamps(stamps, r),
        if row.Some? && (same || r.kind.Generic?) then Max(row.value.ts, r.ts) else r.ts,
        if r.kind.Water? then SignalOf(Values(values, stamps, r)) else if row.Some? then row.value.signal else None,
        Some(r.pond), Some(r.product), r.tenant, r.model)
  }

  /** The row after a list of reports of one device. */
  function Fold(reports: seq<Report>): Option<Row> {
    if reports == [] then None else Some(Upsert(Fold(reports[..|reports| - 1]), reports[|reports| - 1]))
  }

  // ----- what the shadow holds

  predicate Alike(a: Report, b: Report) { a.pond == b.pond && a.product == b.product }

  /** Where the reports of the last pond and product begin. */
  function ScopeStart(reports: seq<Report>): (i: nat)
    ensures i <= |reports|
  {
    if |reports| <= 1 then 0
    else
      var n := |reports| - 1;
      if Alike(reports[n], reports[n - 1]) then ScopeStart(reports[..n]) else n
  }

  /** Report `i` is the newest one with the metric in its scope, and the last to arrive of those. */
  ghost predicate Wins(reports: seq<Report>, from: nat, i: nat, k: string) {
    && from <= i < |reports| && k in reports[i].values
    && (forall j :: from <= j < i && k in reports[j].values ==> reports[j].ts <= reports[i].ts)
    && (forall j :: i < j < |reports| && k in reports[j].values ==> reports[j].ts < reports[i].ts)
  }

  ghost predicate Mentioned(reports: seq<Report>, from: nat, k: string) {
    exists i :: from <= i < |reports| && k in reports[i].values
  }

  /** The row holds the winner of every metric, and no other metric. */
  ghost predicate HoldsWinners(row: Row, reports: seq<Report>, from: nat) {
    && (forall k :: k in row.stamps <==> k in row.values)
    && (forall k :: k in row.stamps ==> Mentioned(reports, from, k))
    && (forall i: nat, k :: Wins(reports, from, i, k) ==> k in row.stamps && row.stamps[k] == reports[i].ts && row.values[k] == reports[i].values[k])
  }

  lemma {:induction false} SomeoneWins(reports: seq<Report>, from: nat, k: string) returns (i: nat)
    requires Mentioned(reports, from, k)
    ensures Wins(reports, from, i, k)
    decreases |reports|
  {
    var n := |reports| - 1;
    if Mentioned(reports[..n], from, k) {
      i := SomeoneWins(reports[..n], from, k);
      WinsBack(reports, from, i, k);
      if k in reports[n].values && reports[i].ts <= reports[n].ts { i := n; }
    } else {
      i := n;
      OnlyLast(reports, from, k);
    }
  }

  lemma OnlyLast(reports: seq<Report>, from: nat, k: string)
    requires Mentioned(reports, from, k) && !Mentioned(reports[..|reports| - 1], from, k)
    ensures Wins(reports, from, |reports| - 1, k)
  {
    var n := |reports| - 1;
    forall j | from <= j < n ensures k !in reports[j].values {
      assert reports[..n][j] == reports[j];
    }
  }

  /** A winner of the shorter list keeps what it knows of its predecessors. */
  lemma WinsBack(reports: seq<Report>, from: nat, i: nat, k: string)
    requires reports != [] && Wins(reports[..|reports| - 1], from, i, k)
    ensures from <= i < |reports| - 1 && k in reports[i].values
    ensures forall j :: from <= j < |reports| - 1 && k in reports[j].values ==> reports[j].ts <= reports[i].ts
    ensures forall j :: i < j < |reports| - 1 && k in reports[j].values ==> reports[j].ts < reports[i].ts
  {
    var init := reports[..|reports| - 1];
    forall j | from <= j < |reports| - 1 && k in reports[j].values
      ensures reports[j].ts <= reports[i].ts && (i < j ==> reports[j].ts < reports[i].ts)
    {
      assert init[j] == reports[j];
    }
  }

  /** The last report wins exactly where the row takes it; every other winner was one before. */
  lemma WinsStep(reports: seq<Report>, from: nat, i: nat, k: string)
    requires reports != [] && from < |reports| && Wins(reports, from, i, k)
    ensures i < |reports| - 1 ==> Wins(reports[..|reports| - 1], from, i, k)
  {}

  /** What one more report does to one metric of a row in its scope. */
  lemma MetricAfter(row: Row, r: Report, k: string)
    requires SameScope(Some(row), r) && (k in row.stamps <==> k in row.values)
    ensures var after := Upsert(Some(row), r);
      && (k in after.stamps <==> k in row.stamps || k in r.values) && (k in after.values <==> k in after.stamps)
      && (Takes(row.stamps, r, k) ==> after.stamps[k] == r.ts && after.values[k] == r.values[k])
      && (k in row.stamps && !Takes(row.stamps, r, k) ==> after.stamps[k] == row.stamps[k] && after.values[k] == row.values[k])
  {}

  lemma MentionedMore(init: seq<Report>, r: Report, from: nat, k: string)
    requires from <= |init|
    ensures Mentioned(init + [r], from, k) <==> Mentioned(init, from, k) || k in r.values
  {
    var reports := init + [r];
    if i :| from <= i < |reports| && k in reports[i].values {
      assert i < |init| ==> k in init[i].values;
    }
    if i :| from <= i < |init| && k in init[i].values { assert k in reports[i].values; }
    if k in r.values { assert k in reports[|init|].values; }
  }

  /** The winner of the longer list is the new report, exactly if the row takes its value. */
  lemma WinnerAfter(row: Row, init: seq<Report>, from: nat, r: Report, i: nat, k: string)
    requires HoldsWinners(row, init, from) && from <= |init| && Wins(init + [r], from, i, k)
    ensures i < |init| ==> Wins(init, from, i, k) && !Takes(row.stamps, r, k)
    ensures i >= |init| ==> i == |init| && Takes(row.stamps, r, k)
  {
    var reports := init + [r];
    assert reports[..|reports| - 1] == init;
    if i < |init| {
      WinsStep(reports, from, i, k);
      assert reports[|init|] == r;
    } else if k in row.stamps {
      var j := SomeoneWins(init, from, k);
      assert k in reports[j].values && reports[j] == init[j];
    }
  }

  lemma RowTakes(row: Row, init: seq<Report>, from: nat, r: Report)
    requires HoldsWinners(row, init, from) && from <= |init| && SameScope(Some(row), r)
    ensures HoldsWinners(Upsert(Some(row), r), init + [r], from)
  {
    var reports, after := init + [r], Upsert(Some(row), r);
    forall k ensures (k in after.stamps <==> k in after.values) && (k in after.stamps ==> Mentioned(reports, from, k)) {
      MetricAfter(row, r, k);
      MentionedMore(init, r, from, k);
    }
    forall i: nat, k | Wins(reports, from, i, k)
      ensures k in after.stamps && after.stamps[k] == reports[i].ts && after.values[k] == reports[i].values[k]
    {
      MetricAfter(row, r, k);
      WinnerAfter(row, init, from, r, i, k);
      assert i < |init| ==> reports[i] == init[i];
    }
  }

  lemma RowStarts(row: Option<Row>, init: seq<Report>, r: Report)
    requires !SameScope(row, r)
    ensures HoldsWinners(Upsert(row, r), init + [r], |init|)
  {
    var reports := init + [r];
    forall k | k in r.values ensures Mentioned(reports, |init|, k) { assert k in reports[|init|].values; }
  }

  /** Main result. After any list of reports the shadow holds, for every metric reported
      since the pond and product last changed, the greatest timestamp and the last-arriving
      value with it, and nothing from before the change. */
  lemma {:induction false} ShadowHoldsWinners(reports: seq<Report>)
    requires reports != []
    ensures HoldsWinners(Fold(reports).value, reports, ScopeStart(reports))
    ensures SameScope(Fold(reports), reports[|reports| - 1])
  {
    var n := |reports| - 1;
    var init, r := reports[..n], reports[n];
    assert reports == init + [r];
    if n > 0 {
      ShadowHoldsWinners(init);
      assert init[n - 1] == reports[n - 1];
    }
    if n > 0 && Alike(r, reports[n - 1]) {
      RowTakes(Fold(init).value, init, ScopeStart(init), r);
    } else {
      RowStarts(Fold(init), init, r);
    }
  }

  // ----- convergence

  ghost predicate OneScope(reports: seq<Report>) {
    forall i, j :: 0 <= i < |reports| && 0 <= j < |reports| ==> Alike(reports[i], reports[j])
  }

  ghost predicate Newest(reports: seq<Report>, r: Report, k: string) {
    r in reports && k in r.values && forall q :: q in reports && k in q.values ==> q.ts <= r.ts
  }

  /** Newest reports of a metric agree on its value. */
  ghost predicate NewestAgree(reports: seq<Report>) {
    forall r, q, k :: Newest(reports, r, k) && Newest(reports, q, k) ==> r.values[k] == q.values[k]
  }

  lemma {:induction false} OneScopeStart(reports: seq<Report>)
    requires OneScope(reports)
    ensures ScopeStart(reports) == 0
  {
    if |reports| > 1 {
      var init := reports[..|reports| - 1];
      assert forall i :: 0 <= i < |init| ==> init[i] == reports[i];
      OneScopeStart(init);
    }
  }

  lemma HoldsNewest(reports: seq<Report>, k: string) returns (r: Report)
    requires OneScope(reports) && reports != [] && Mentioned(reports, 0, k)
    ensures Newest(reports, r, k)
    ensures var row := Fold(reports).value; k in row.stamps && k in row.values && row.stamps[k] == r.ts && row.values[k] == r.values[k]
  {
    OneScopeStart(reports);
    ShadowHoldsWinners(reports);
    var i := SomeoneWins(reports, 0, k);
    r := reports[i];
  }

  /** Where the reports that count for the timestamp of the row begin: a water report of
      another pond or product starts it over, a generic one does not. */
  function TsStart(reports: seq<Report>): (i: nat)
    ensures i <= |reports|
  {
    if |reports| <= 1 then 0
    else
      var n := |reports| - 1;
      if Alike(reports[n], reports[n - 1]) || reports[n].kind.Generic? then TsStart(reports[..n]) else n
  }

  lemma {:induction false} TsStartFirst(reports: seq<Report>)
    requires reports != []
    ensures TsStart(reports) <= ScopeStart(reports) < |reports|
  {
    if |reports| > 1 { TsStartFirst(reports[..|reports| - 1]); }
  }

  /** `ts` is the greatest timestamp from report `from` on. */
  ghost predicate GreatestFrom(reports: seq<Report>, from: nat, ts: int) {
    (forall i :: from <= i < |reports| ==> reports[i].ts <= ts) && exists i :: from <= i < |reports| && reports[i].ts == ts
  }

  lemma GreatestMore(init: seq<Report>, from: nat, ts: int, r: Report)
    requires GreatestFrom(init, from, ts)
    ensures GreatestFrom(init + [r], from, Max(ts, r.ts))
  {
    var reports := init + [r];
    var i :| from <= i < |init| && init[i].ts == ts;
    assert reports[i].ts == ts && reports[|init|].ts == r.ts;
    assert forall j :: 0 <= j < |init| ==> reports[j] == init[j];
  }

  lemma GreatestOne(init: seq<Report>, r: Report)
    ensures GreatestFrom(init + [r], |init|, r.ts)
  {
    assert (init + [r])[|init|].ts == r.ts;
  }

  /** The timestamp of the row is the greatest of the reports that count for it. */
  lemma {:induction false} FoldTs(reports: seq<Report>)
    requires reports != []
    ensures GreatestFrom(reports, TsStart(reports), Fold(reports).value.ts)
  {
    var n := |reports| - 1;
    var init, r := reports[..n], reports[n];
    assert reports == init + [r];
    if n == 0 {
      GreatestOne(init, r);
    } else {
      FoldTs(init);
      ShadowHoldsWinners(init);
      assert init[n - 1] == reports[n - 1];
      GreatestMore(init, TsStart(init), Fold(init).value.ts, r);
      GreatestOne(init, r);
    }
  }

  /** Two lists with the same reports in them, in whatever order and number. */
  ghost predicate SameReports(a: seq<Report>, b: seq<Report>) {
    forall r :: r in a <==> r in b
  }

  /** A metric of one fold is in the other, with the same timestamp and value. */
  lemma SameMetric(a: seq<Report>, b: seq<Report>, k: string)
    requires SameReports(a, b) && a != [] && b != [] && OneScope(a) && OneScope(b) && NewestAgree(a)
    requires k in Fold(a).value.stamps
    ensures var x, y := Fold(a).value, Fold(b).value;
      && k in x.values && k in y.values && x.values[k] == y.values[k]
      && k in y.stamps && x.stamps[k] == y.stamps[k]
  {
    OneScopeStart(a);
    ShadowHoldsWinners(a);
    var r := HoldsNewest(a, k);
    MentionedBy(b, r, k);
    var q := HoldsNewest(b, k);
    assert Newest(a, q, k);
  }

  lemma SameKeys(reports: seq<Report>)
    requires reports != []
    ensures var row := Fold(reports).value; forall k :: k in row.stamps <==> k in row.values
  {
    ShadowHoldsWinners(reports);
  }

  /** Every metric of `x` is in `y`, with the same timestamp and value. */
  ghost predicate Within(x: Row, y: Row) {
    && (forall k :: k in x.stamps <==> k in x.values)
    && (forall k :: k in x.stamps ==> k in y.stamps && k in y.values && x.values[k] == y.values[k] && x.stamps[k] == y.stamps[k])
  }

  lemma SameMetrics(a: seq<Report>, b: seq<Report>, x: Row, y: Row)
    requires SameReports(a, b) && a != [] && b != [] && OneScope(a) && OneScope(b) && NewestAgree(a)
    requires Fold(a) == Some(x) && Fold(b) == Some(y)
    ensures Within(x, y)
  {
    SameKeys(a);
    forall k | k in x.stamps ensures k in y.stamps && k in y.values && x.values[k] == y.values[k] && x.stamps[k] == y.stamps[k] {
      SameMetric(a, b, k);
    }
  }

  lemma SameMaps(a: seq<Report>, b: seq<Report>)
    requires SameReports(a, b) && a != [] && b != [] && OneScope(a) && OneScope(b) && NewestAgree(a) && NewestAgree(b)
    ensures Fold(a).value.values == Fold(b).value.values && Fold(a).value.stamps == Fold(b).value.stamps
  {
    var x, y := Fold(a).value, Fold(b).value;
    SameMetrics(a, b, x, y);
    SameMetrics(b, a, y, x);
    RowsEqual(x, y);
  }

  lemma RowsEqual(x: Row, y: Row)
    requires Within(x, y) && Within(y, x)
    ensures x.values == y.values && x.stamps == y.stamps
  {}

  lemma SameScopeAndAgreement(a: seq<Report>, b: seq<Report>)
    requires SameReports(a, b) && OneScope(a) && NewestAgree(a)
    ensures OneScope(b) && NewestAgree(b)
  {
    forall i, j | 0 <= i < |b| && 0 <= j < |b| ensures Alike(b[i], b[j]) {
      assert b[i] in a && b[j] in a;
    }
    forall r, q, k | Newest(b, r, k) && Newest(b, q, k) ensures r.values[k] == q.values[k] {
      assert Newest(a, r, k) && Newest(a, q, k);
    }
  }

  /** What of a row does not depend on which report came last. */
  function Contents(row: Option<Row>): Option<(map<string, Value>, map<string, int>, int, Option<int>, Option<int>)> {
    if row.None? then None else Some((row.value.values, row.value.stamps, row.value.ts, row.value.pond, row.value.product))
  }

  lemma SameFold(a: seq<Report>, b: seq<Report>)
    requires SameReports(a, b) && a != [] && b != [] && OneScope(a) && NewestAgree(a)
    ensures Contents(Fold(a)) == Contents(Fold(b))
  {
    SameScopeAndAgreement(a, b);
    SameMaps(a, b);
    SameTs(a, b);
    SameTs(b, a);
    var last := b[|b| - 1];
    assert last in a;
    var i :| 0 <= i < |a| && a[i] == last;
    assert Alike(a[|a| - 1], a[i]);
  }

  lemma MentionedBy(reports: seq<Report>, r: Report, k: string)
    requires r in reports && k in r.values
    ensures Mentioned(reports, 0, k)
  {
    var i :| 0 <= i < |reports| && reports[i] == r;
  }

  lemma SameTs(a: seq<Report>, b: seq<Report>)
    requires SameReports(a, b) && a != [] && b != [] && OneScope(a) && OneScope(b)
    ensures Fold(a).value.ts <= Fold(b).value.ts
  {
    OneScopeStart(a);
    OneScopeStart(b);
    TsStartFirst(a);
    TsStartFirst(b);
    FoldTs(a);
    FoldTs(b);
    var i :| 0 <= i < |a| && a[i].ts == Fold(a).value.ts;
    assert a[i] in b;
  }

  /** The same reports with `r` moved to the end. */
  lemma MovedLast(reports: seq<Report>, r: Report) returns (moved: seq<Report>)
    requires r in reports
    ensures multiset(moved) == multiset(reports) && moved != [] && moved[|moved| - 1] == r
  {
    var i :| 0 <= i < |reports| && reports[i] == r;
    moved := reports[..i] + reports[i + 1..] + [r];
    assert reports == reports[..i] + [r] + reports[i + 1..];
  }

  lemma MultisetSame(a: seq<Report>, b: seq<Report>)
    requires multiset(a) == multiset(b)
    ensures SameReports(a, b) && |a| == |b|
  {
    assert |a| == |multiset(a)| == |multiset(b)| == |b|;
    forall r ensures r in a <==> r in b {
      assert r in a <==> r in multiset(a);
      assert r in b <==> r in multiset(b);
    }
  }

  lemma LastNewestWins(reports: seq<Report>, r: Report, k: string)
    requires OneScope(reports) && reports != [] && reports[|reports| - 1] == r && Newest(reports, r, k)
    ensures var row := Fold(reports).value; k in row.values && row.values[k] == r.values[k]
  {
    OneScopeStart(reports);
    ShadowHoldsWinners(reports);
    forall j | 0 <= j < |reports| - 1 && k in reports[j].values ensures reports[j].ts <= r.ts { assert reports[j] in reports; }
    assert Wins(reports, 0, |reports| - 1, k);
  }

  ghost predicate Converges(reports: seq<Report>) {
    forall other :: multiset(other) == multiset(reports) ==> Contents(Fold(other)) == Contents(Fold(reports))
  }

  lemma MovedFold(reports: seq<Report>, r: Report, k: string)
    requires OneScope(reports) && Newest(reports, r, k) && Converges(reports)
    ensures reports != [] && k in Fold(reports).value.values && Fold(reports).value.values[k] == r.values[k]
  {
    var moved := MovedLast(reports, r);
    MultisetSame(moved, reports);
    forall i, j | 0 <= i < |moved| && 0 <= j < |moved| ensures Alike(moved[i], moved[j]) {
      assert moved[i] in reports && moved[j] in reports;
    }
    LastNewestWins(moved, r, k);
  }

  /** Main result. Under one pond and product, every order of arrival gives the same shadow
      if and only if the newest reports of each metric agree on it; in particular whenever
      no two of them have the same timestamp. */
  lemma ConvergesIff(reports: seq<Report>)
    requires OneScope(reports)
    ensures Converges(reports) <==> NewestAgree(reports)
  {
    if NewestAgree(reports) {
      forall other | multiset(other) == multiset(reports) ensures Contents(Fold(other)) == Contents(Fold(reports)) {
        MultisetSame(other, reports);
        if reports != [] { SameFold(reports, other); }
      }
    }
    if Converges(reports) {
      forall r, q, k | Newest(reports, r, k) && Newest(reports, q, k) ensures r.values[k] == q.values[k] {
        MovedFold(reports, r, k);
        MovedFold(reports, q, k);
      }
    }
  }

  lemma DistinctTimesAgree(reports: seq<Report>)
    requires forall r, q :: r in reports && q in reports && r.ts == q.ts ==> r == q
    ensures NewestAgree(reports)
  {
    forall r, q, k | Newest(reports, r, k) && Newest(reports, q, k) ensures r.values[k] == q.values[k] {
      assert r.ts <= q.ts && q.ts <= r.ts;
    }
  }

  /** Main result. The timestamp of the row is the greatest reported since the pond or product
      last changed if and only if every earlier report that a generic one let count has one
      since the change that is at least as new. */
  lemma RowTimestamps(reports: seq<Report>)
    requires reports != []
    ensures GreatestFrom(reports, ScopeStart(reports), Fold(reports).value.ts) <==>
      forall i :: TsStart(reports) <= i < ScopeStart(reports) ==> NewerSince(reports, i)
  {
    TsStartFirst(reports);
    FoldTs(reports);
    var ts, from, since := Fold(reports).value.ts, TsStart(reports), ScopeStart(reports);
    if GreatestFrom(reports, since, ts) {
      var j :| since <= j < |reports| && reports[j].ts == ts;
      forall i | from <= i < since ensures NewerSince(reports, i) { assert reports[i].ts <= reports[j].ts; }
    }
    if forall i :: from <= i < since ==> NewerSince(reports, i) {
      var j :| from <= j < |reports| && reports[j].ts == ts;
      if j < since { assert NewerSince(reports, j); }
    }
  }

  /** Some report of the last pond and product is at least as new as report `i`. */
  ghost predicate NewerSince(reports: seq<Report>, i: nat) {
    exists j :: ScopeStart(reports) <= j < |reports| && i < |reports| && reports[i].ts <= reports[j].ts
  }

  /** A generic device that reports at 2, is moved, and reports at 1 there: its row says 2. */
  lemma TimestampOfAnotherPond() returns (reports: seq<Report>)
    ensures reports != [] && !GreatestFrom(reports, ScopeStart(reports), Fold(reports).value.ts)
    ensures Fold(reports).value.ts == 2 && reports[ScopeStart(reports)..] == [Report(Generic, 1, map[], 2, 1, 1, 1)]
  {
    var a, b := Report(Generic, 2, map[], 1, 1, 1, 1), Report(Generic, 1, map[], 2, 1, 1, 1);
    reports := [a, b];
    assert reports[..1] == [a] && [a][..0] == [];
    assert Fold([a]).value.ts == 2;
    assert Fold(reports) == Some(Upsert(Fold([a]), b));
  }

  /** The signal column is computed by the last water report; generic ones leave it as it was. */
  lemma {:induction false} SignalOfLastWater(reports: seq<Report>, w: nat)
    requires w < |reports| && reports[w].kind.Water? && forall i :: w < i < |reports| ==> reports[i].kind.Generic?
    ensures Fold(reports).value.signal == SignalOf(Fold(reports[..w + 1]).value.values)
  {
    var n := |reports| - 1;
    if w < n {
      assert reports[..n][..w + 1] == reports[..w + 1];
      SignalOfLastWater(reports[..n], w);
    } else {
      assert reports[..w + 1] == reports;
    }
  }

  // ----- the upserts

  /** The stamps when all metrics but `todo` have been looked at. */
  ghost predicate StampsTaken(stamps': map<string, int>, r: Report, todo: set<string>, stamps: map<string, int>) {
    forall k :: if k in todo || k !in r.values then (k in stamps) == (k in stamps') && (k in stamps ==> stamps[k] == stamps'[k])
      else k in stamps && stamps[k] == if Takes(stamps', r, k) then r.ts else stamps'[k]
  }

  ghost predicate ValuesTaken(values': map<string, Value>, stamps': map<string, int>, r: Report, todo: set<string>, values: map<string, Value>) {
    forall k :: if k in todo || !Takes(stamps', r, k) then (k in values) == (k in values') && (k in values ==> values[k] == values'[k])
      else k in values && values[k] == r.values[k]
  }

  /** The shadow is that of the pond, product, tenant and model the last report named. */
  lemma ScopeOfLastReport(reports: seq<Report>)
    requires reports != []
    ensures var row, last := Fold(reports).value, reports[|reports| - 1];
      row.pond == Some(last.pond) && row.product == Some(last.product) && row.tenant == last.tenant && row.model == last.model
  {}

  lemma AllTaken(values': map<string, Value>, stamps': map<string, int>, r: Report, values: map<string, Value>, stamps: map<string, int>)
    requires StampsTaken(stamps', r, {}, stamps) && ValuesTaken(values', stamps', r, {}, values)
    ensures values == Values(values', stamps', r) && stamps == Stamps(stamps', r)
  {}

  lemma TakenNext(values': map<string, Value>, stamps': map<string, int>, r: Report, todo: set<string>,
                  values: map<string, Value>, stamps: map<string, int>, k: string)
    requires k in todo && k in r.values && StampsTaken(stamps', r, todo, stamps) && ValuesTaken(values', stamps', r, todo, values)
    ensures var newer := k !in stamps || stamps[k] <= r.ts;
      && StampsTaken(stamps', r, todo - {k}, if newer then stamps[k := r.ts] else stamps)
      && ValuesTaken(values', stamps', r, todo - {k}, if newer then values[k := r.values[k]] else values)
  {
    assert (k in stamps) == (k in stamps');
  }

  class Shadows {
    var rows: map<string, Row>

    constructor ()
      ensures rows == map[]
    {
      rows := map[];
    }

    /** The loop over the reported metrics, which Go takes in any order. */
    static method TakeNewer(values': map<string, Value>, stamps': map<string, int>, r: Report)
      returns (values: map<string, Value>, stamps: map<string, int>)
      ensures values == Values(values', stamps', r) && stamps == Stamps(stamps', r)
    {
      values, stamps := values', stamps';
      var todo := r.values.Keys;
      while todo != {}
        invariant todo <= r.values.Keys && StampsTaken(stamps', r, todo, stamps) && ValuesTaken(values', stamps', r, todo, values)
        decreases todo
      {
        var k :| k in todo;
        TakenNext(values', stamps', r, todo, values, stamps, k);
        if k !in stamps || stamps[k] <= r.ts {
          values := values[k := r.values[k]];
          stamps := stamps[k := r.ts];
        }
        todo := todo - {k};
      }
      AllTaken(values', stamps', r, values, stamps);
    }

    /** shadowUpsert and genericShadowUpsert. */
    method ShadowUpsert(device: string, r: Report)
      modifies this
      ensures rows == old(rows)[device := Upsert(if device in old(rows) then Some(old(rows)[device]) else None, r)]
    {
      var row := if device in rows then Some(rows[device]) else None;
      var values: map<string, Value>, stamps: map<string, int>, latest := map[], map[], r.ts;
      if SameScope(row, r) {
        values, stamps, latest := row.value.values, row.value.stamps, row.value.ts;
      } else if r.kind.Generic? && row.Some? {
        latest := row.value.ts;
      }
      values, stamps := TakeNewer(values, stamps, r);
      if latest < r.ts { latest := r.ts; }
      var signal := if row.Some? then row.value.signal else None;
      if r.kind.Water? { signal := if "signal" in values then Some(values["signal"]) else None; }
      rows := rows[device := Row(values, stamps, latest, signal, Some(r.pond), Some(r.product), r.tenant, r.model)];
    }
  }
}
