/** The canonical query string that open API requests are signed over. */
module OpenQuery {
  import opened Prelude
  import opened Percent

  datatype Pair = Pair(key: string, value: string)

  /** utf8.ValidString: well-formed byte sequences of section 4 of RFC 3629. */
  predicate ValidUtf8(s: string) {
    if s == [] then true
    else
      var n := Utf8Length(s);
      0 < n <= |s| && ValidUtf8(s[n..])
  }

  /** Length of the well-formed sequence `s` starts with, 0 if there is none. */
  function Utf8Length(s: string): nat
    requires s != []
  {
    var b := s[0] as int;
    if b < 0x80 then 1
    else if 0xC2 <= b <= 0xDF then if Continues(s, 1, 0x80, 0xBF) then 2 else 0
    else if 0xE0 <= b <= 0xEF then
      if Continues(s, 1, if b == 0xE0 then 0xA0 else 0x80, if b == 0xED then 0x9F else 0xBF) && Continues(s, 2, 0x80, 0xBF) then 3 else 0
    else if 0xF0 <= b <= 0xF4 then
      if Continues(s, 1, if b == 0xF0 then 0x90 else 0x80, if b == 0xF4 then 0x8F else 0xBF)
         && Continues(s, 2, 0x80, 0xBF) && Continues(s, 3, 0x80, 0xBF) then 4 else 0
    else 0
  }

  predicate Continues(s: string, i: nat, low: int, high: int) { i < |s| && low <= s[i] as int <= high }

  // ----- what a raw query says

  function DecodePart(s: string): Option<string> {
    var d := Unescape(s);
    if d.Some? && ValidUtf8(d.value) then d else None
  }

  /** strings.SplitN(item, "=", 2): what is before the first equals sign and after it. */
  function Cut(item: string): (string, string) {
    if item == [] then ([], [])
    else if item[0] == '=' then ([], item[1..])
    else var (key, value) := Cut(item[1..]); ([item[0]] + key, value)
  }

  function DecodeItem(item: string): Option<Pair> {
    var (key, value) := Cut(item);
    var k, v := DecodePart(key), DecodePart(value);
    if k.Some? && v.Some? then Some(Pair(k.value, v.value)) else None
  }

  function DecodeItems(items: seq<string>): Option<seq<Pair>> {
    if items == [] then Some([])
    else
      var before, last := DecodeItems(items[..|items| - 1]), DecodeItem(items[|items| - 1]);
      if before.Some? && last.Some? then Some(before.value + [last.value]) else None
  }

  /** The (key, value) pairs of a query in order, None where it is malformed. */
  function Decode(raw: string): Option<seq<Pair>> {
    if raw == "" then Some([]) else DecodeItems(Split(raw, '&'))
  }

  // ----- the canonical form

  function EncodePair(p: Pair): Pair { Pair(Encode(p.key, Unreserved), Encode(p.value, Unreserved)) }

  function Map<A, B>(f: A -> B, s: seq<A>): seq<B> {
    seq(|s|, i requires 0 <= i < |s| => f(s[i]))
  }

  predicate PairLess(a: Pair, b: Pair) {
    if a.key == b.key then Less(a.value, b.value) else Less(a.key, b.key)
  }

  /** Before the first pair that is greater: equal pairs keep their order. */
  function Insert(ps: seq<Pair>, p: Pair): seq<Pair> {
    if ps == [] || !PairLess(p, ps[|ps| - 1]) then ps + [p] else Insert(ps[..|ps| - 1], p) + [ps[|ps| - 1]]
  }

  function Sort(ps: seq<Pair>): seq<Pair> {
    if ps == [] then [] else Insert(Sort(ps[..|ps| - 1]), ps[|ps| - 1])
  }

  function Item(p: Pair): string { p.key + "=" + p.value }

  function Canonical(raw: string): Option<string> {
    var pairs := Decode(raw);
    if pairs.None? then None else Some(Join(Map(Item, Sort(Map(EncodePair, pairs.value))), '&'))
  }

  // ----- sorting

  ghost predicate Ordered(ps: seq<Pair>) {
    forall i, j :: 0 <= i < j < |ps| ==> !PairLess(ps[j], ps[i])
  }

  lemma PairLessStrict(a: Pair, b: Pair)
    ensures PairLess(a, b) || a == b || PairLess(b, a)
    ensures PairLess(a, b) ==> !PairLess(b, a) && a != b
  {
    LessTotal(a.key, b.key);
    LessTotal(a.value, b.value);
    if Less(a.key, b.key) { LessAsymmetric(a.key, b.key); }
    if Less(a.value, b.value) { LessAsymmetric(a.value, b.value); }
  }

  lemma PairLessTransitive(a: Pair, b: Pair, c: Pair)
    requires PairLess(a, b) && PairLess(b, c)
    ensures PairLess(a, c)
  {
    PairLessStrict(a, b);
    PairLessStrict(b, c);
    if a.key == b.key && b.key == c.key {
      LessTransitive(a.value, b.value, c.value);
    } else if a.key != b.key && b.key != c.key {
      LessTransitive(a.key, b.key, c.key);
      LessAsymmetric(a.key, c.key);
    }
  }

  lemma {:induction false} InsertKeepsElements(ps: seq<Pair>, p: Pair)
    ensures multiset(Insert(ps, p)) == multiset(ps) + multiset{p}
  {
    if ps != [] && PairLess(p, ps[|ps| - 1]) {
      InsertKeepsElements(ps[..|ps| - 1], p);
      assert ps == ps[..|ps| - 1] + [ps[|ps| - 1]];
    }
  }

  lemma {:induction false} InsertOrdered(ps: seq<Pair>, p: Pair)
    requires Ordered(ps)
    ensures Ordered(Insert(ps, p))
  {
    if ps != [] {
      var n, last := |ps| - 1, ps[|ps| - 1];
      PairLessStrict(p, last);
      if PairLess(p, last) {
        InsertOrdered(ps[..n], p);
        InsertKeepsElements(ps[..n], p);
        var r := Insert(ps[..n], p);
        forall i | 0 <= i < |r| ensures !PairLess(last, r[i]) {
          assert r[i] in multiset(r);
          assert r[i] in multiset(ps[..n]) || r[i] == p;
        }
      } else {
        forall i | 0 <= i < n ensures !PairLess(p, ps[i]) {
          PairLessStrict(ps[i], last);
          if PairLess(p, ps[i]) && PairLess(ps[i], last) { PairLessTransitive(p, ps[i], last); }
        }
      }
    }
  }

  lemma {:induction false} SortKeepsElements(ps: seq<Pair>)
    ensures multiset(Sort(ps)) == multiset(ps)
  {
    if ps != [] {
      var n := |ps| - 1;
      SortKeepsElements(ps[..n]);
      InsertKeepsElements(Sort(ps[..n]), ps[n]);
      assert ps == ps[..n] + [ps[n]];
    }
  }

  lemma {:induction false} SortOrdered(ps: seq<Pair>)
    ensures Ordered(Sort(ps))
  {
    if ps != [] {
      SortOrdered(ps[..|ps| - 1]);
      InsertOrdered(Sort(ps[..|ps| - 1]), ps[|ps| - 1]);
    }
  }

  lemma SameSize<T>(a: seq<T>, b: seq<T>)
    requires multiset(a) == multiset(b)
    ensures |a| == |b|
  {
    assert |multiset(a)| == |a| && |multiset(b)| == |b|;
  }

  lemma TakeOut<T>(s: seq<T>, i: nat)
    requires i < |s|
    ensures multiset(s) == multiset(s[..i] + s[i + 1..]) + multiset{s[i]}
  {
    assert s == s[..i] + [s[i]] + s[i + 1..];
  }

  lemma LastIsGreatest(a: seq<Pair>, b: seq<Pair>)
    requires a != [] && |a| == |b| && Ordered(a) && Ordered(b) && multiset(a) == multiset(b)
    ensures a[|a| - 1] == b[|b| - 1]
  {
    var n := |a| - 1;
    assert a[n] in multiset(b) && b[n] in multiset(a);
    var i :| 0 <= i < |b| && b[i] == a[n];
    var j :| 0 <= j < |a| && a[j] == b[n];
    PairLessStrict(a[n], b[n]);
  }

  lemma WithoutSame<T>(a: seq<T>, i: nat, b: seq<T>, j: nat)
    requires multiset(a) == multiset(b) && i < |a| && j < |b| && a[i] == b[j]
    ensures multiset(a[..i] + a[i + 1..]) == multiset(b[..j] + b[j + 1..])
  {
    TakeOut(a, i);
    TakeOut(b, j);
    var x, y := multiset(a[..i] + a[i + 1..]), multiset(b[..j] + b[j + 1..]);
    assert x == x + multiset{a[i]} - multiset{a[i]};
    assert y == y + multiset{a[i]} - multiset{a[i]};
  }

  /** The order is total, so what is sorted is determined by its elements. */
  lemma {:induction false} OrderedUnique(a: seq<Pair>, b: seq<Pair>)
    requires Ordered(a) && Ordered(b) && multiset(a) == multiset(b)
    ensures a == b
  {
    SameSize(a, b);
    if a != [] {
      var n := |a| - 1;
      LastIsGreatest(a, b);
      WithoutSame(a, n, b, n);
      assert a[..n] + a[n + 1..] == a[..n] && b[..n] + b[n + 1..] == b[..n];
      OrderedUnique(a[..n], b[..n]);
      assert a == a[..n] + [a[n]] && b == b[..n] + [b[n]];
    }
  }

  lemma MapTakeOut<A, B>(f: A -> B, s: seq<A>, i: nat)
    requires i < |s|
    ensures multiset(Map(f, s)) == multiset(Map(f, s[..i] + s[i + 1..])) + multiset{f(s[i])}
  {
    TakeOut(Map(f, s), i);
    assert Map(f, s)[..i] + Map(f, s)[i + 1..] == Map(f, s[..i] + s[i + 1..]);
  }

  /** Mapping respects what a sequence holds, whatever its order. */
  lemma {:induction false} MapKeepsElements<A, B>(f: A -> B, a: seq<A>, b: seq<A>)
    requires multiset(a) == multiset(b)
    ensures multiset(Map(f, a)) == multiset(Map(f, b))
    decreases |a|
  {
    SameSize(a, b);
    if a == [] {
      assert Map(f, a) == Map(f, b);
    } else {
      assert a[0] in multiset(b);
      var i :| 0 <= i < |b| && b[i] == a[0];
      WithoutSame(a, 0, b, i);
      MapKeepsElements(f, a[..0] + a[1..], b[..i] + b[i + 1..]);
      MapTakeOut(f, a, 0);
      MapTakeOut(f, b, i);
    }
  }

  // ----- the canonical form says what the query said

  lemma {:induction false} CutAtEquals(key: string, value: string)
    requires '=' !in key
    ensures Cut(key + "=" + value) == (key, value)
  {
    if key == [] {
      assert (key + "=" + value)[1..] == value;
    } else {
      assert (key + "=" + value)[1..] == key[1..] + "=" + value;
      CutAtEquals(key[1..], value);
      assert [key[0]] + key[1..] == key;
    }
  }

  ghost predicate Clear(p: Pair) {
    Bytes(p.key) && Bytes(p.value) && ValidUtf8(p.key) && ValidUtf8(p.value)
  }

  lemma ItemRoundTrip(p: Pair)
    requires Clear(p)
    ensures DecodeItem(Item(EncodePair(p))) == Some(p) && '&' !in Item(EncodePair(p))
  {
    EncodeRoundTrip(p.key, Unreserved);
    EncodeRoundTrip(p.value, Unreserved);
    EncodeLacks(p.key, Unreserved, '=');
    EncodeLacks(p.key, Unreserved, '&');
    EncodeLacks(p.value, Unreserved, '&');
    CutAtEquals(EncodePair(p).key, EncodePair(p).value);
  }

  lemma {:induction false} CutBytes(item: string)
    requires Bytes(item)
    ensures Bytes(Cut(item).0) && Bytes(Cut(item).1)
  {
    if item != [] && item[0] != '=' { CutBytes(item[1..]); }
  }

  lemma DecodeItemClear(item: string)
    requires Bytes(item) && DecodeItem(item).Some?
    ensures Clear(DecodeItem(item).value)
  {
    CutBytes(item);
    UnescapeBytes(Cut(item).0);
    UnescapeBytes(Cut(item).1);
  }

  lemma {:induction false} DecodeItemsAt(items: seq<string>)
    requires DecodeItems(items).Some?
    ensures var ps := DecodeItems(items).value;
      |ps| == |items| && forall i :: 0 <= i < |items| ==> DecodeItem(items[i]) == Some(ps[i])
  {
    if items != [] {
      var n := |items| - 1;
      var init := items[..n];
      DecodeItemsAt(init);
      forall i | 0 <= i < n ensures DecodeItem(items[i]) == Some(DecodeItems(items).value[i]) { assert init[i] == items[i]; }
    }
  }

  lemma {:induction false} DecodeItemsFrom(items: seq<string>, ps: seq<Pair>)
    requires |ps| == |items| && forall i :: 0 <= i < |items| ==> DecodeItem(items[i]) == Some(ps[i])
    ensures DecodeItems(items) == Some(ps)
  {
    if items != [] {
      var n := |items| - 1;
      DecodeItemsFrom(items[..n], ps[..n]);
      assert ps == ps[..n] + [ps[n]];
    }
  }

  lemma {:induction false} SplitBytes(s: string, c: char)
    requires Bytes(s)
    ensures forall i :: 0 <= i < |Split(s, c)| ==> Bytes(Split(s, c)[i])
  {
    if s != [] { SplitBytes(s[1..], c); }
  }

  lemma DecodeClear(raw: string)
    requires Bytes(raw) && Decode(raw).Some?
    ensures forall i :: 0 <= i < |Decode(raw).value| ==> Clear(Decode(raw).value[i])
  {
    if raw != "" {
      var items := Split(raw, '&');
      SplitBytes(raw, '&');
      DecodeItemsAt(items);
      forall i | 0 <= i < |items| ensures Clear(Decode(raw).value[i]) { DecodeItemClear(items[i]); }
    }
  }

  function DecodePair(p: Pair): Pair {
    Pair(if Unescape(p.key).Some? then Unescape(p.key).value else "", if Unescape(p.value).Some? then Unescape(p.value).value else "")
  }

  lemma DecodePairUndoes(p: Pair)
    requires Clear(p)
    ensures DecodePair(EncodePair(p)) == p
  {
    EncodeRoundTrip(p.key, Unreserved);
    EncodeRoundTrip(p.value, Unreserved);
  }

  /** Joining encoded pairs and decoding the result gives the pairs back, in the same order. */
  lemma JoinedDecodes(ps: seq<Pair>)
    requires forall i :: 0 <= i < |ps| ==> Clear(ps[i])
    ensures Decode(Join(Map(Item, Map(EncodePair, ps)), '&')) == Some(ps)
  {
    var items := Map(Item, Map(EncodePair, ps));
    forall i | 0 <= i < |ps| ensures DecodeItem(items[i]) == Some(ps[i]) && '&' !in items[i] { ItemRoundTrip(ps[i]); }
    if ps != [] {
      SplitJoin(items, '&');
      assert items[0] != "" by { assert items[0] == Item(EncodePair(ps[0])); }
      assert Join(items, '&') != "";
      DecodeItemsFrom(items, ps);
    }
  }

  /** Sorting encoded pairs and decoding them is a reordering of the pairs. */
  lemma SortedDecodes(ps: seq<Pair>)
    requires forall i :: 0 <= i < |ps| ==> Clear(ps[i])
    ensures var sorted := Sort(Map(EncodePair, ps)); var back := Map(DecodePair, sorted);
      && Map(EncodePair, back) == sorted && multiset(back) == multiset(ps)
      && forall i :: 0 <= i < |back| ==> Clear(back[i])
  {
    var encoded := Map(EncodePair, ps);
    var sorted := Sort(encoded);
    var back := Map(DecodePair, sorted);
    SortKeepsElements(encoded);
    MapKeepsElements(DecodePair, sorted, encoded);
    assert Map(DecodePair, encoded) == ps by {
      forall i | 0 <= i < |ps| ensures DecodePair(encoded[i]) == ps[i] { DecodePairUndoes(ps[i]); }
    }
    forall i | 0 <= i < |sorted| ensures Clear(back[i]) && EncodePair(back[i]) == sorted[i] {
      var j := Whence(sorted, i, encoded);
      DecodePairUndoes(ps[j]);
    }
    assert Map(EncodePair, back) == sorted;
  }

  lemma Whence<T>(a: seq<T>, i: nat, b: seq<T>) returns (j: nat)
    requires multiset(a) == multiset(b) && i < |a|
    ensures j < |b| && b[j] == a[i]
  {
    assert a[i] in multiset(b);
    j :| j < |b| && b[j] == a[i];
  }

  /** The canonical form decodes to the same pairs, each as often as before. */
  lemma CanonicalKeepsMeaning(raw: string)
    requires Bytes(raw) && Canonical(raw).Some?
    ensures Decode(Canonical(raw).value).Some?
    ensures multiset(Decode(Canonical(raw).value).value) == multiset(Decode(raw).value)
  {
    DecodeClear(raw);
    SortedDecodes(Decode(raw).value);
    JoinedDecodes(Map(DecodePair, Sort(Map(EncodePair, Decode(raw).value))));
  }

  /** Main result. Two queries that canonicalise have the same canonical form if and
      only if they carry the same (key, value) pairs, each as often, in whatever order. */
  lemma SameCanonicalIffSamePairs(a: string, b: string)
    requires Bytes(a) && Bytes(b) && Canonical(a).Some? && Canonical(b).Some?
    ensures Canonical(a) == Canonical(b) <==> multiset(Decode(a).value) == multiset(Decode(b).value)
  {
    CanonicalKeepsMeaning(a);
    CanonicalKeepsMeaning(b);
    if multiset(Decode(a).value) == multiset(Decode(b).value) {
      MapKeepsElements(EncodePair, Decode(a).value, Decode(b).value);
      var x, y := Map(EncodePair, Decode(a).value), Map(EncodePair, Decode(b).value);
      SortKeepsElements(x);
      SortKeepsElements(y);
      SortOrdered(x);
      SortOrdered(y);
      OrderedUnique(Sort(x), Sort(y));
    }
  }

  /** Canonicalising twice changes nothing. */
  lemma CanonicalIsIdempotent(raw: string)
    requires Bytes(raw) && Canonical(raw).Some?
    ensures Canonical(Canonical(raw).value) == Canonical(raw)
  {
    CanonicalKeepsMeaning(raw);
    CanonicalBytes(raw);
    SameCanonicalIffSamePairs(raw, Canonical(raw).value);
  }

  lemma {:induction false} EncodeBytesOnly(s: string)
    ensures Bytes(Encode(s, Unreserved))
  {
    if s != [] {
      EncodeBytesOnly(s[..|s| - 1]);
      HexDigitsKept(s[|s| - 1] as int / 16 % 16, Unreserved);
      HexDigitsKept(s[|s| - 1] as int % 16, Unreserved);
    }
  }

  lemma {:induction false} JoinBytes(parts: seq<string>, c: char)
    requires c as int < 256 && forall i :: 0 <= i < |parts| ==> Bytes(parts[i])
    ensures Bytes(Join(parts, c))
  {
    if |parts| > 1 { JoinBytes(parts[1..], c); }
  }

  lemma ItemBytes(p: Pair)
    ensures Bytes(Item(EncodePair(p)))
  {
    EncodeBytesOnly(p.key);
    EncodeBytesOnly(p.value);
  }

  lemma CanonicalBytes(raw: string)
    requires Canonical(raw).Some?
    ensures Bytes(Canonical(raw).value)
  {
    var encoded := Map(EncodePair, Decode(raw).value);
    SortKeepsElements(encoded);
    var items := Map(Item, Sort(encoded));
    forall i | 0 <= i < |items| ensures Bytes(items[i]) {
      var j := Whence(Sort(encoded), i, encoded);
      ItemBytes(Decode(raw).value[j]);
    }
    JoinBytes(items, '&');
  }

  // ----- the code

  lemma {:induction false} MalformedItemFails(items: seq<string>, i: nat)
    requires i < |items| && DecodeItem(items[i]).None?
    ensures DecodeItems(items).None?
  {
    if i < |items| - 1 { MalformedItemFails(items[..|items| - 1], i); }
  }

  lemma MapAppend<A, B>(f: A -> B, s: seq<A>, x: A)
    ensures Map(f, s + [x]) == Map(f, s) + [f(x)]
  {}

  method EncodeItem(item: string) returns (p: Option<Pair>)
    ensures p == if DecodeItem(item).None? then None else Some(EncodePair(DecodeItem(item).value))
  {
    var (key, value) := Cut(item);
    var k := Unescape(key);
    if k.None? || !ValidUtf8(k.value) { return None; }
    var v := Unescape(value);
    if v.None? || !ValidUtf8(v.value) { return None; }
    var encodedKey := EncodeBytes(k.value, Unreserved);
    var encodedValue := EncodeBytes(v.value, Unreserved);
    return Some(Pair(encodedKey, encodedValue));
  }

  /** The items are decoded and encoded one by one. */
  method EncodeItems(items: seq<string>) returns (r: Option<seq<Pair>>)
    ensures r == if DecodeItems(items).None? then None else Some(Map(EncodePair, DecodeItems(items).value))
  {
    var pairs: seq<Pair> := [];
    for i := 0 to |items|
      invariant DecodeItems(items[..i]).Some? && pairs == Map(EncodePair, DecodeItems(items[..i]).value)
    {
      assert items[..i + 1][..i] == items[..i];
      var pair := EncodeItem(items[i]);
      if pair.None? {
        MalformedItemFails(items, i);
        return None;
      }
      MapAppend(EncodePair, DecodeItems(items[..i]).value, DecodeItem(items[i]).value);
      pairs := pairs + [pair.value];
    }
    assert items[..|items|] == items;
    r := Some(pairs);
  }

  method WriteParts(pairs: seq<Pair>) returns (parts: seq<string>)
    ensures parts == Map(Item, pairs)
  {
    parts := [];
    for i := 0 to |pairs|
      invariant parts == Map(Item, pairs[..i])
    {
      assert pairs[..i + 1] == pairs[..i] + [pairs[i]];
      MapAppend(Item, pairs[..i], pairs[i]);
      parts := parts + [pairs[i].key + "=" + pairs[i].value];
    }
    assert pairs[..|pairs|] == pairs;
  }

  /** CanonicalOpenQuery: decode and encode item by item, sort, write out. */
  method CanonicalOpenQuery(raw: string) returns (r: Option<string>)
    ensures r == Canonical(raw)
  {
    if raw == "" { return Some(""); }
    var pairs := EncodeItems(Split(raw, '&'));
    if pairs.None? { return None; }
    var sorted := SortStable(pairs.value);
    var parts := WriteParts(sorted);
    return Some(Join(parts, '&'));
  }

  method SortStable(pairs: seq<Pair>) returns (r: seq<Pair>)
    ensures r == Sort(pairs)
  {
    r := [];
    for i := 0 to |pairs|
      invariant r == Sort(pairs[..i])
    {
      assert pairs[..i + 1][..i] == pairs[..i];
      r := Insert(r, pairs[i]);
    }
    assert pairs[..|pairs|] == pairs;
  }
}
