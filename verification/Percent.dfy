/** Percent-encoding of sections 2.1 and 2.3 of RFC 3986, on byte strings, and
    splitting and joining at a separator. */
module Percent {
  import opened Prelude

  ghost predicate Bytes(s: string) { forall i :: 0 <= i < |s| ==> s[i] as int < 256 }

  /** What stays as it is: the unreserved characters, and in a path segment six more. */
  datatype Mode = Unreserved | PathSegment

  predicate Keep(c: char, mode: Mode) {
    || 'a' <= c <= 'z' || 'A' <= c <= 'Z' || '0' <= c <= '9' || c == '-' || c == '.' || c == '_' || c == '~'
    || (mode == PathSegment && (c == '$' || c == '&' || c == '+' || c == ':' || c == '=' || c == '@'))
  }

  type Nibble = n: nat | n < 16

  const HEX := "0123456789ABCDEF"

  function EncodeByte(c: char, mode: Mode): string {
    if Keep(c, mode) then [c] else ['%', HEX[c as int / 16 % 16], HEX[c as int % 16]]
  }

  function Encode(s: string, mode: Mode): string {
    if s == [] then [] else Encode(s[..|s| - 1], mode) + EncodeByte(s[|s| - 1], mode)
  }

  function HexValue(c: char): Option<nat> {
    if '0' <= c <= '9' then Some(c as int - '0' as int)
    else if 'A' <= c <= 'F' then Some(c as int - 'A' as int + 10)
    else if 'a' <= c <= 'f' then Some(c as int - 'a' as int + 10)
    else None
  }

  /** url.PathUnescape: None where a percent sign is not followed by two hex digits. */
  function Unescape(s: string): Option<string> {
    if s == [] then Some([])
    else if s[0] != '%' then
      var rest := Unescape(s[1..]);
      if rest.None? then None else Some([s[0]] + rest.value)
    else if |s| < 3 || HexValue(s[1]).None? || HexValue(s[2]).None? then None
    else
      var rest := Unescape(s[3..]);
      if rest.None? then None else Some([(16 * HexValue(s[1]).value + HexValue(s[2]).value) as char] + rest.value)
  }

  /** strings.Split at one separator. */
  function Split(s: string, c: char): (parts: seq<string>)
    ensures |parts| >= 1
  {
    if s == [] then [[]]
    else
      var rest := Split(s[1..], c);
      if s[0] == c then [[]] + rest else [[s[0]] + rest[0]] + rest[1..]
  }

  function Join(parts: seq<string>, c: char): string {
    if parts == [] then [] else if |parts| == 1 then parts[0] else parts[0] + [c] + Join(parts[1..], c)
  }

  // ----- encoding can be undone

  lemma HexRoundTrip(n: Nibble)
    ensures HexValue(HEX[n]) == Some(n)
  {
    assert HEX[0] == '0' && HEX[9] == '9' && HEX[10] == 'A' && HEX[15] == 'F';
  }

  function Unit(s: string): nat { if s != [] && s[0] == '%' then 3 else 1 }

  /** Decoding takes one unit off and starts over: a character, or a percent sign and
      two digits; what follows makes no difference to it. */
  lemma UnescapeUnit(s: string, b: string) returns (v: char)
    requires s != [] && Unescape(s).Some?
    ensures Unit(s) <= |s| && Unescape(s[Unit(s)..]).Some?
    ensures Unescape(s).value == [v] + Unescape(s[Unit(s)..]).value
    ensures Unescape(s[Unit(s)..] + b).Some? ==> Unescape(s + b) == Some([v] + Unescape(s[Unit(s)..] + b).value)
  {
    v := Unescape(s).value[0];
    assert (s + b)[Unit(s)..] == s[Unit(s)..] + b;
  }

  lemma {:induction false} UnescapeAppend(a: string, b: string)
    requires Unescape(a).Some? && Unescape(b).Some?
    ensures Unescape(a + b) == Some(Unescape(a).value + Unescape(b).value)
    decreases |a|
  {
    if a == [] {
      assert a + b == b && Unescape(a).value + Unescape(b).value == Unescape(b).value;
    } else {
      var v := UnescapeUnit(a, b);
      var rest := a[Unit(a)..];
      UnescapeAppend(rest, b);
      Prepend(v, Unescape(rest).value, Unescape(b).value);
    }
  }

  lemma Prepend(v: char, x: string, y: string)
    ensures [v] + (x + y) == [v] + x + y
  {}

  lemma UnescapeByte(c: char, mode: Mode)
    requires c as int < 256
    ensures Unescape(EncodeByte(c, mode)) == Some([c])
  {
    var e := EncodeByte(c, mode);
    HexRoundTrip(c as int / 16 % 16);
    HexRoundTrip(c as int % 16);
    if Keep(c, mode) {
      assert e[1..] == [] && Unescape([]) == Some([]);
      assert [c] + [] == [c];
    } else {
      var hi, lo := c as int / 16, c as int % 16;
      assert hi % 16 == hi && 16 * hi + lo == c as int;
      assert e[3..] == [] && Unescape([]) == Some([]);
      assert [c] + [] == [c];
    }
  }

  /** decode(encode(s)) == s for every byte string. */
  lemma {:induction false} EncodeRoundTrip(s: string, mode: Mode)
    requires Bytes(s)
    ensures Unescape(Encode(s, mode)) == Some(s)
  {
    if s != [] {
      var n := |s| - 1;
      EncodeRoundTrip(s[..n], mode);
      UnescapeByte(s[n], mode);
      UnescapeAppend(Encode(s[..n], mode), EncodeByte(s[n], mode));
      assert s == s[..n] + [s[n]];
    }
  }

  /** A reserved character never survives encoding. */
  lemma {:induction false} EncodeLacks(s: string, mode: Mode, c: char)
    requires !Keep(c, mode) && c != '%'
    ensures c !in Encode(s, mode)
  {
    if s != [] {
      EncodeLacks(s[..|s| - 1], mode, c);
      var b := s[|s| - 1];
      HexDigitsKept(b as int / 16 % 16, mode);
      HexDigitsKept(b as int % 16, mode);
    }
  }

  lemma HexDigitsKept(n: Nibble, mode: Mode)
    ensures Keep(HEX[n], mode)
  {
    HexRoundTrip(n);
  }

  /** A string without percent signs decodes to itself. */
  lemma {:induction false} UnescapePlain(s: string)
    requires '%' !in s
    ensures Unescape(s) == Some(s)
  {
    if s != [] {
      UnescapePlain(s[1..]);
      assert s == [s[0]] + s[1..];
    }
  }

  lemma {:induction false} UnescapeBytes(s: string)
    requires Bytes(s) && Unescape(s).Some?
    ensures Bytes(Unescape(s).value)
  {
    if s != [] { UnescapeBytes(if s[0] == '%' then s[3..] else s[1..]); }
  }

  // ----- splitting undoes joining and the other way round

  lemma {:induction false} SplitAtSeparator(a: string, b: string, c: char)
    requires c !in a
    ensures Split(a, c) == [a] && Split(a + [c] + b, c) == [a] + Split(b, c)
  {
    if a == [] {
      assert a + [c] + b == [c] + b && ([c] + b)[1..] == b;
    } else {
      SplitAtSeparator(a[1..], b, c);
      assert (a + [c] + b)[1..] == a[1..] + [c] + b;
      assert [a[0]] + a[1..] == a;
    }
  }

  lemma {:induction false} SplitJoin(parts: seq<string>, c: char)
    requires parts != [] && forall i :: 0 <= i < |parts| ==> c !in parts[i]
    ensures Split(Join(parts, c), c) == parts
  {
    if |parts| == 1 {
      SplitAtSeparator(parts[0], [], c);
      assert parts == [parts[0]];
    } else {
      SplitJoin(parts[1..], c);
      SplitAtSeparator(parts[0], Join(parts[1..], c), c);
      assert parts == [parts[0]] + parts[1..];
    }
  }

  lemma {:induction false} JoinSplit(s: string, c: char)
    ensures Join(Split(s, c), c) == s
    ensures forall i :: 0 <= i < |Split(s, c)| ==> c !in Split(s, c)[i]
  {
    if s != [] {
      JoinSplit(s[1..], c);
      var parts, rest := Split(s, c), Split(s[1..], c);
      if s[0] == c {
        assert parts[1..] == rest;
      } else if |rest| == 1 {
        assert Join(parts, c) == [s[0]] + rest[0];
      } else {
        assert parts[1..] == rest[1..];
        assert Join(parts, c) == [s[0]] + rest[0] + [c] + Join(rest[1..], c);
      }
    }
  }

  // ----- the builder loop

  /** rfc3986 and url.PathEscape write the result byte by byte. */
  method EncodeBytes(s: string, mode: Mode) returns (b: string)
    ensures b == Encode(s, mode)
  {
    b := "";
    for i := 0 to |s|
      invariant b == Encode(s[..i], mode)
    {
      var c := s[i];
      if Keep(c, mode) {
        b := b + [c];
      } else {
        b := b + ['%'];
        b := b + [HEX[c as int / 16 % 16]];
        b := b + [HEX[c as int % 16]];
      }
      assert s[..i + 1][..i] == s[..i];
    }
    assert s[..|s|] == s;
  }
}
