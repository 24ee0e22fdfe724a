/** Which raw queries have a canonical form, what escapes and byte sequences stand for, and
    how a canonical form is spelled. */
module QueryForms {
  import opened Prelude
  import opened Percent
  import opened OpenQuery

  // ----- hex digits and escapes

  const LOWER_HEX := "0123456789abcdef"

  function Digit(n: Nibble): char {
    if n < 10 then (n + '0' as int) as char else (n - 10 + 'A' as int) as char
  }

  /** A hex digit stands for its place among the sixteen, in capitals or not. */
  lemma HexValueIff(c: char, n: Nibble)
    ensures HexValue(c) == Some(n) <==> c == Digit(n) || c == LOWER_HEX[n]
    ensures HexValue(c).Some? ==> HexValue(c).value < 16
  {
    assert LOWER_HEX[0] == '0' && LOWER_HEX[1] == '1' && LOWER_HEX[2] == '2' && LOWER_HEX[3] == '3' && LOWER_HEX[4] == '4';
    assert LOWER_HEX[5] == '5' && LOWER_HEX[6] == '6' && LOWER_HEX[7] == '7' && LOWER_HEX[8] == '8' && LOWER_HEX[9] == '9';
    assert LOWER_HEX[10] == 'a' && LOWER_HEX[11] == 'b' && LOWER_HEX[12] == 'c' && LOWER_HEX[13] == 'd' && LOWER_HEX[14] == 'e' && LOWER_HEX[15] == 'f';
  }

  /** Escaped in the canonical way: unreserved characters stand for themselves, any other byte
      is a percent sign and its two hex digits in capitals. */
  lemma EncodeByteIs(c: char)
    requires c as int < 256
    ensures EncodeByte(c, Unreserved) ==
      if ('a' <= c <= 'z') || ('A' <= c <= 'Z') || ('0' <= c <= '9') || c in "-._~" then [c]
      else ['%', Digit(c as int / 16), Digit(c as int % 16)]
  {
    HexRoundTrip(c as int / 16);
    HexRoundTrip(c as int % 16);
    HexIs(c as int / 16);
    HexIs(c as int % 16);
  }

  lemma HexIs(n: Nibble)
    ensures HEX[n] == Digit(n)
  {
    assert HEX[0] == '0' && HEX[1] == '1' && HEX[2] == '2' && HEX[3] == '3' && HEX[4] == '4';
    assert HEX[5] == '5' && HEX[6] == '6' && HEX[7] == '7' && HEX[8] == '8' && HEX[9] == '9';
    assert HEX[10] == 'A' && HEX[11] == 'B' && HEX[12] == 'C' && HEX[13] == 'D' && HEX[14] == 'E' && HEX[15] == 'F';
  }

  /** Every percent sign is followed by two hex digits. */
  predicate WellEscaped(s: string) {
    forall i :: 0 <= i < |s| && s[i] == '%' ==> i + 2 < |s| && HexValue(s[i + 1]).Some? && HexValue(s[i + 2]).Some?
  }

  /** Main result. Exactly the well-escaped strings can be decoded. */
  lemma {:induction false} DecodableIffWellEscaped(s: string)
    ensures Unescape(s).Some? <==> WellEscaped(s)
    decreases |s|
  {
    if s != [] {
      var n := Unit(s);
      if s[0] == '%' && (|s| < 3 || HexValue(s[1]).None? || HexValue(s[2]).None?) {
        assert !WellEscaped(s);
      } else {
        DecodableIffWellEscaped(s[n..]);
        TailWellEscaped(s, n);
      }
    }
  }

  lemma TailWellEscaped(s: string, n: nat)
    requires s != [] && n == Unit(s) && n <= |s| && (s[0] == '%' ==> HexValue(s[1]).Some? && HexValue(s[2]).Some?)
    ensures WellEscaped(s) <==> WellEscaped(s[n..])
  {
    var t := s[n..];
    assert forall i :: 0 <= i < |t| ==> t[i] == s[n + i];
    if WellEscaped(s) {
      forall i | 0 <= i < |t| && t[i] == '%' ensures i + 2 < |t| && HexValue(t[i + 1]).Some? && HexValue(t[i + 2]).Some? {
        assert s[n + i] == '%';
      }
    }
    if WellEscaped(t) {
      forall i | 0 <= i < |s| && s[i] == '%' ensures i + 2 < |s| && HexValue(s[i + 1]).Some? && HexValue(s[i + 2]).Some? {
        if i >= n { assert t[i - n] == '%'; }
      }
    }
  }

  /** Anywhere in a string, a character other than a percent sign decodes to itself, and a percent sign
      and two hex digits to the byte they name. */
  lemma DecodedInPlace(a: string, c: char, h: Nibble, l: Nibble, b: string)
    requires Unescape(a).Some? && Unescape(b).Some? && c != '%'
    ensures Unescape(a + [c] + b) == Some(Unescape(a).value + [c] + Unescape(b).value)
    ensures Unescape(a + ['%', Digit(h), Digit(l)] + b) == Some(Unescape(a).value + [(16 * h + l) as char] + Unescape(b).value)
    ensures Unescape(a + ['%', LOWER_HEX[h], LOWER_HEX[l]] + b) == Some(Unescape(a).value + [(16 * h + l) as char] + Unescape(b).value)
  {
    UnescapePlain([c]);
    Inside(a, [c], [c], b);
    EscapeDecodes(Digit(h), Digit(l), h, l);
    Inside(a, ['%', Digit(h), Digit(l)], [(16 * h + l) as char], b);
    EscapeDecodes(LOWER_HEX[h], LOWER_HEX[l], h, l);
    Inside(a, ['%', LOWER_HEX[h], LOWER_HEX[l]], [(16 * h + l) as char], b);
  }

  lemma EscapeDecodes(x: char, y: char, h: Nibble, l: Nibble)
    requires (x == Digit(h) || x == LOWER_HEX[h]) && (y == Digit(l) || y == LOWER_HEX[l])
    ensures Unescape(['%', x, y]) == Some([(16 * h + l) as char])
  {
    HexValueIff(x, h);
    HexValueIff(y, l);
    assert ['%', x, y][3..] == [] && Unescape([]) == Some([]);
    assert [(16 * h + l) as char] + [] == [(16 * h + l) as char];
  }

  lemma Inside(a: string, x: string, v: string, b: string)
    requires Unescape(a).Some? && Unescape(b).Some? && Unescape(x) == Some(v)
    ensures Unescape(a + x + b) == Some(Unescape(a).value + v + Unescape(b).value)
  {
    UnescapeAppend(a, x);
    UnescapeAppend(a + x, b);
  }

  // ----- UTF-8

  /** A Unicode scalar value. */
  type Scalar = p: int | 0 <= p < 0xD800 || 0xE000 <= p < 0x11_0000

  /** The octets of a scalar value, by the table in section 3 of RFC 3629. */
  function Octets(p: Scalar): string {
    if p < 0x80 then [p as char]
    else if p < 0x800 then [(0xC0 + p / 64) as char, (0x80 + p % 64) as char]
    else if p < 0x1_0000 then [(0xE0 + p / 4096) as char, (0x80 + p / 64 % 64) as char, (0x80 + p % 64) as char]
    else [(0xF0 + p / 262144) as char, (0x80 + p / 4096 % 64) as char, (0x80 + p / 64 % 64) as char, (0x80 + p % 64) as char]
  }

  function Utf8(ps: seq<Scalar>): string {
    if ps == [] then [] else Octets(ps[0]) + Utf8(ps[1..])
  }

  /** What a string starts with is one scalar value's octets exactly if its first sequence is well formed. */
  lemma OctetsAreWellFormed(p: Scalar, rest: string)
    ensures Utf8Length(Octets(p) + rest) == |Octets(p)| > 0
  {
    var s := Octets(p) + rest;
    assert s[..|Octets(p)|] == Octets(p);
    if 0x800 <= p < 0x1_0000 {
      assert p / 4096 < 16 && (p / 4096 == 0 ==> p / 64 % 64 >= 0x20) && (p / 4096 == 13 ==> p / 64 % 64 < 0x20);
    }
    if 0x1_0000 <= p {
      assert p / 262144 < 5 && (p / 262144 == 0 ==> p / 4096 % 64 >= 0x10) && (p / 262144 == 4 ==> p / 4096 % 64 < 0x10);
    }
  }

  lemma {:induction false} Utf8IsValid(ps: seq<Scalar>)
    ensures ValidUtf8(Utf8(ps))
  {
    if ps != [] {
      Utf8IsValid(ps[1..]);
      OctetsAreWellFormed(ps[0], Utf8(ps[1..]));
      assert Utf8(ps)[|Octets(ps[0])|..] == Utf8(ps[1..]);
    }
  }

  lemma FirstScalar(s: string) returns (p: Scalar)
    requires s != [] && 0 < Utf8Length(s) <= |s|
    ensures Octets(p) == s[..Utf8Length(s)]
  {
    var b := s[0] as int;
    if Utf8Length(s) == 1 {
      p := b;
    } else if Utf8Length(s) == 2 {
      p := TwoOctets(b, s[1] as int);
    } else if Utf8Length(s) == 3 {
      p := ThreeOctets(b, s[1] as int, s[2] as int);
    } else {
      p := FourOctets(b, s[1] as int, s[2] as int, s[3] as int);
    }
  }

  lemma TwoOctets(b: int, c: int) returns (p: Scalar)
    requires 0xC2 <= b <= 0xDF && 0x80 <= c <= 0xBF
    ensures Octets(p) == [b as char, c as char]
  {
    p := 64 * (b - 0xC0) + (c - 0x80);
    Quotients(b - 0xC0, c - 0x80);
  }

  lemma ThreeOctets(b: int, c: int, d: int) returns (p: Scalar)
    requires 0xE0 <= b <= 0xEF && 0x80 <= c <= 0xBF && 0x80 <= d <= 0xBF && (b == 0xE0 ==> 0xA0 <= c) && (b == 0xED ==> c <= 0x9F)
    ensures Octets(p) == [b as char, c as char, d as char]
  {
    var high := 64 * (b - 0xE0) + (c - 0x80);
    p := 64 * high + (d - 0x80);
    Quotients(b - 0xE0, c - 0x80);
    Quotients(high, d - 0x80);
    assert p / 4096 == high / 64;
  }

  lemma FourOctets(b: int, c: int, d: int, e: int) returns (p: Scalar)
    requires 0xF0 <= b <= 0xF4 && 0x80 <= c <= 0xBF && 0x80 <= d <= 0xBF && 0x80 <= e <= 0xBF
    requires (b == 0xF0 ==> 0x90 <= c) && (b == 0xF4 ==> c <= 0x8F)
    ensures Octets(p) == [b as char, c as char, d as char, e as char]
  {
    var top := 64 * (b - 0xF0) + (c - 0x80);
    var high := 64 * top + (d - 0x80);
    p := 64 * high + (e - 0x80);
    Quotients(b - 0xF0, c - 0x80);
    Quotients(top, d - 0x80);
    Quotients(high, e - 0x80);
    assert p / 4096 == high / 64 && p / 262144 == top / 64;
  }

  lemma Quotients(q: int, r: int)
    requires 0 <= r < 64
    ensures (64 * q + r) / 64 == q && (64 * q + r) % 64 == r
  {}

  lemma {:induction false} ValidIsUtf8(s: string) returns (ps: seq<Scalar>)
    requires ValidUtf8(s)
    ensures Utf8(ps) == s
    decreases |s|
  {
    if s == [] {
      ps := [];
    } else {
      var n := Utf8Length(s);
      var p := FirstScalar(s);
      var rest := ValidIsUtf8(s[n..]);
      ps := [p] + rest;
      assert ps[1..] == rest && s == s[..n] + s[n..];
    }
  }

  ghost predicate Encodes(s: string, ps: seq<Scalar>) { Utf8(ps) == s }

  /** Main result. A byte string passes the check exactly if it is the encoding of some sequence of Unicode scalar values. */
  lemma ValidIffEncodes(s: string)
    ensures ValidUtf8(s) <==> exists ps :: Encodes(s, ps)
  {
    if ValidUtf8(s) {
      var ps := ValidIsUtf8(s);
      assert Encodes(s, ps);
    }
    if ps :| Encodes(s, ps) { Utf8IsValid(ps); }
  }

  // ----- which queries have a canonical form

  /** Well escaped, and what it decodes to is the encoding of Unicode text. */
  ghost predicate WellFormed(part: string) {
    WellEscaped(part) && Unescape(part).Some? && exists ps :: Encodes(Unescape(part).value, ps)
  }

  /** The item has no equals sign, or is cut at its first. */
  ghost predicate CutsTo(item: string, key: string, value: string) {
    '=' !in key && (item == key + "=" + value || (item == key && value == ""))
  }

  lemma {:induction false} CutMeans(item: string)
    ensures CutsTo(item, Cut(item).0, Cut(item).1)
    ensures forall key, value :: CutsTo(item, key, value) ==> Cut(item) == (key, value)
  {
    CutIsOne(item);
    forall key, value | CutsTo(item, key, value) ensures Cut(item) == (key, value) {
      if item == key + "=" + value { CutAtEquals(key, value); } else { CutNothing(item); }
    }
  }

  lemma {:induction false} CutIsOne(item: string)
    ensures CutsTo(item, Cut(item).0, Cut(item).1)
  {
    if item != [] {
      if item[0] == '=' {
        assert item == [] + "=" + item[1..];
      } else {
        CutIsOne(item[1..]);
        var (key, value) := Cut(item[1..]);
        assert item == [item[0]] + item[1..];
        assert [item[0]] + key + "=" + value == [item[0]] + (key + "=" + value);
      }
    }
  }

  lemma {:induction false} CutNothing(item: string)
    ensures '=' !in item ==> Cut(item) == (item, "")
  {
    if item != [] {
      CutNothing(item[1..]);
      assert item == [item[0]] + item[1..];
    }
  }

  ghost predicate ItemOk(item: string) {
    forall key, value :: CutsTo(item, key, value) ==> WellFormed(key) && WellFormed(value)
  }

  ghost predicate ItemsOk(items: seq<string>) { forall i :: 0 <= i < |items| ==> ItemOk(items[i]) }

  lemma PartOk(part: string)
    ensures DecodePart(part).Some? <==> WellFormed(part)
    ensures WellFormed(part) ==> DecodePart(part) == Unescape(part)
  {
    DecodableIffWellEscaped(part);
    if Unescape(part).Some? { ValidIffEncodes(Unescape(part).value); }
  }

  /** An item says its key and value, decoded; without an equals sign the value is empty. */
  lemma ItemSays(item: string, key: string, value: string)
    requires CutsTo(item, key, value)
    ensures DecodeItem(item).Some? <==> WellFormed(key) && WellFormed(value)
    ensures DecodeItem(item).Some? ==> DecodeItem(item).value == Pair(Unescape(key).value, Unescape(value).value)
  {
    CutMeans(item);
    PartOk(key);
    PartOk(value);
  }

  /** Main result. A raw query has a canonical form exactly if it is empty or the key and the value
      of each of its items are well escaped and decode to Unicode text. */
  lemma CanonicalIff(raw: string)
    ensures Canonical(raw).Some? <==> raw == "" || ItemsOk(Split(raw, '&'))
  {
    var items := Split(raw, '&');
    forall i | 0 <= i < |items| ensures DecodeItem(items[i]).Some? <==> ItemOk(items[i]) {
      CutMeans(items[i]);
      ItemSays(items[i], Cut(items[i]).0, Cut(items[i]).1);
    }
    AllOrNone(items);
  }

  lemma {:induction false} AllOrNone(items: seq<string>)
    ensures DecodeItems(items).Some? <==> forall i :: 0 <= i < |items| ==> DecodeItem(items[i]).Some?
  {
    if items != [] {
      var init := items[..|items| - 1];
      AllOrNone(init);
      assert forall i :: 0 <= i < |init| ==> init[i] == items[i];
    }
  }

  /** What a query says, item by item, in order. */
  lemma QuerySays(raw: string, i: nat, key: string, value: string)
    requires raw != "" && Canonical(raw).Some? && i < |Split(raw, '&')| && CutsTo(Split(raw, '&')[i], key, value)
    ensures |Decode(raw).value| == |Split(raw, '&')| && Unescape(key).Some? && Unescape(value).Some?
    ensures Decode(raw).value[i] == Pair(Unescape(key).value, Unescape(value).value)
  {
    DecodeItemsAt(Split(raw, '&'));
    ItemSays(Split(raw, '&')[i], key, value);
  }
}
