/** The playlist rewriter: every segment line of an HLS media playlist (section 4.1 of
    RFC 8216) is replaced by a gateway URL whose last part names a stored mapping. */
module Manifest {
  import opened Prelude
  import opened Percent

  datatype Access = Access(session: string, stream: string, version: int)
  datatype Mapping = Mapping(id: string, session: string, stream: string, version: int, path: string)

  /** The answer of CreateSegmentMappings. */
  datatype Stored = Created(mappings: seq<Mapping>) | Failed
  datatype Outcome = Playlist(text: string) | BadMedia | Unavailable | StoreError

  const MAX_BYTES := 256 * 1024

  // ----- lines

  /** strings.ReplaceAll(s, "\r\n", "\n") */
  function Unix(s: string): string {
    if |s| < 2 then s
    else if s[0] == '\r' && s[1] == '\n' then ['\n'] + Unix(s[2..])
    else [s[0]] + Unix(s[1..])
  }

  function TrimNewline(s: string): string {
    if s != [] && s[|s| - 1] == '\n' then s[..|s| - 1] else s
  }

  function Normalised(manifest: string): string { TrimNewline(Unix(manifest)) }

  function Lines(manifest: string): seq<string> { Split(Normalised(manifest), '\n') }

  predicate Contains(s: string, part: string) {
    part <= s || (s != [] && Contains(s[1..], part))
  }

  predicate IsTag(line: string) { "#" <= line }

  const EXACT_TAGS := ["#EXTM3U", "#EXT-X-DISCONTINUITY", "#EXT-X-GAP", "#EXT-X-INDEPENDENT-SEGMENTS", "#EXT-X-ENDLIST", "#EXT-X-PLAYLIST-TYPE:EVENT"]
  const TAG_PREFIXES := ["#EXTINF:", "#EXT-X-VERSION:", "#EXT-X-TARGETDURATION:", "#EXT-X-MEDIA-SEQUENCE:", "#EXT-X-DISCONTINUITY-SEQUENCE:", "#EXT-X-PROGRAM-DATE-TIME:"]

  predicate AllowedTag(line: string) {
    && !Contains(line, "URI=") && !Contains(line, "../") && !Contains(line, "\\")
    && (line in EXACT_TAGS || exists i :: 0 <= i < |TAG_PREFIXES| && TAG_PREFIXES[i] <= line)
  }

  function Number(digits: string): int {
    if digits == [] then 0 else 10 * Number(digits[..|digits| - 1]) + (digits[|digits| - 1] as int - '0' as int)
  }

  function DaysIn(month: int, year: int): int {
    if month == 2 then (if year % 4 == 0 && (year % 100 != 0 || year % 400 == 0) then 29 else 28)
    else if month in {4, 6, 9, 11} then 30
    else 31
  }

  /** In a pattern, 9 stands for any digit and every other character for itself. */
  predicate Fits(s: string, pattern: string) {
    |s| == |pattern| && forall i :: 0 <= i < |s| ==> if pattern[i] == '9' then '0' <= s[i] <= '9' else s[i] == pattern[i]
  }

  predicate FitsSegment(p: string) {
    && |p| >= 24 && Fits(p[..20], "9999-99-99/99/99-99_")
    && (forall i :: 20 <= i < |p| - 3 ==> '0' <= p[i] <= '9') && p[|p| - 3..] == ".ts"
  }

  predicate RealTime(p: string) {
    && |p| >= 24
    && 1 <= Number(p[5..7]) <= 12 && 1 <= Number(p[8..10]) <= DaysIn(Number(p[5..7]), Number(p[..4]))
    && Number(p[11..13]) <= 23 && Number(p[14..16]) <= 59 && Number(p[17..19]) <= 59
  }

  predicate ValidSegmentPath(p: string) {
    && p != "" && (forall c :: c in "%?#\\" ==> c !in p) && !("/" <= p) && !Contains(p, "..")
    && FitsSegment(p) && RealTime(p) && Number(p[20..|p| - 3]) < 0x1_0000_0000
  }

  lemma {:induction false} OneDot(p: string, dot: int)
    requires forall i :: 0 <= i < |p| && p[i] == '.' ==> i == dot
    ensures !Contains(p, "..")
  {
    assert ".." <= p ==> p[0] == p[1] == '.';
    if p != [] { OneDot(p[1..], dot - 1); }
  }

  lemma FitsSegmentAt(p: string, i: nat)
    requires FitsSegment(p) && i < |p|
    ensures p[i] in "-/_" || '0' <= p[i] <= '9' || i >= |p| - 3
    ensures p[0] != '/' && p[|p| - 3] == '.' && p[|p| - 2] == 't' && p[|p| - 1] == 's'
  {
    var pattern := "9999-99-99/99/99-99_";
    if i < 20 {
      assert p[..20][i] == p[i];
      assert pattern[i] in "9-/_";
    }
    assert p[..20][0] == p[0] && pattern[0] == '9';
    assert p[|p| - 3..] == ".ts";
    assert p[|p| - 3..][1] == p[|p| - 2] && p[|p| - 3..][2] == p[|p| - 1];
  }

  /** The screening in front of the pattern refuses nothing the pattern would let through:
      a path is valid exactly if it has the form of a recorded segment at a real time. */
  lemma PatternSuffices(p: string)
    ensures ValidSegmentPath(p) <==> FitsSegment(p) && RealTime(p) && Number(p[20..|p| - 3]) < 0x1_0000_0000
  {
    if FitsSegment(p) {
      forall i | 0 <= i < |p| ensures p[i] !in "%?#\\" && (p[i] == '.' ==> i == |p| - 3) { FitsSegmentAt(p, i); }
      FitsSegmentAt(p, 0);
      OneDot(p, |p| - 3);
    }
  }

  /** Which tag lines and which segment paths are let through. The rewriting does not
      depend on them; the gateway's own are `GATEWAY`. */
  datatype Rules = Rules(tag: string -> bool, path: string -> bool)

  const GATEWAY := Rules(AllowedTag, ValidSegmentPath)

  predicate AllowedLine(line: string, rules: Rules) {
    && '\0' !in line && '\r' !in line
    && if IsTag(line) then rules.tag(line) else line != "" && rules.path(line)
  }

  predicate AllowedLines(lines: seq<string>, rules: Rules) {
    lines != [] && lines[0] == "#EXTM3U" && forall i :: 0 <= i < |lines| ==> AllowedLine(lines[i], rules)
  }

  // ----- the rewriting

  /** The indices of the segment lines, in order. */
  function Segments(lines: seq<string>): seq<nat> {
    if lines == [] then []
    else
      var n := |lines| - 1;
      Segments(lines[..n]) + if IsTag(lines[n]) then [] else [n]
  }

  /** How many segment lines come before line `i`. */
  function Rank(lines: seq<string>, i: nat): nat
    requires i <= |lines|
  {
    |Segments(lines[..i])|
  }

  function Prefix(token: string, session: string): string {
    "/media/v1/" + Encode(token, PathSegment) + "/" + Encode(session, PathSegment) + "/segments/"
  }

  function Url(token: string, session: string, id: string): string {
    Prefix(token, session) + Encode(id, PathSegment)
  }

  /** Line `i` of the answer, where `url` names the segments by rank. */
  function NewLine(lines: seq<string>, i: nat, url: nat -> string): string
    requires i < |lines|
  {
    if IsTag(lines[i]) then lines[i] else url(Rank(lines, i))
  }

  function NewLines(lines: seq<string>, url: nat -> string): seq<string> {
    seq(|lines|, i requires 0 <= i < |lines| => NewLine(lines, i, url))
  }

  /** The URL of the segment line with each rank. */
  function Urls(token: string, session: string, ids: nat -> string): nat -> string {
    (k: nat) => Url(token, session, ids(k))
  }

  function Requested(lines: seq<string>, access: Access, ids: nat -> string): seq<Mapping> {
    var at := Segments(lines);
    seq(|at|, k requires 0 <= k < |at| =>
      Mapping(ids(k), access.session, access.stream, access.version, if at[k] < |lines| then lines[at[k]] else ""))
  }

  lemma {:induction false} SegmentsBack(lines: seq<string>, k: nat)
    requires k < |Segments(lines)|
    ensures var i := Segments(lines)[k]; i < |lines| && !IsTag(lines[i]) && Rank(lines, i) == k
  {
    var n := |lines| - 1;
    if k < |Segments(lines[..n])| {
      SegmentsBack(lines[..n], k);
      var i := Segments(lines)[k];
      assert lines[..n][..i] == lines[..i];
    }
  }

  lemma {:induction false} SegmentsForth(lines: seq<string>, i: nat)
    requires i < |lines| && !IsTag(lines[i])
    ensures Rank(lines, i) < |Segments(lines)| && Segments(lines)[Rank(lines, i)] == i
    decreases |lines|
  {
    var n := |lines| - 1;
    if i < n {
      SegmentsForth(lines[..n], i);
      assert lines[..n][..i] == lines[..i];
    }
  }

  /** rewriteManifest as a whole. */
  function Rewrite(access: Access, token: string, manifest: string, configured: bool, ids: nat -> string, store: seq<Mapping> -> Stored, rules: Rules): Outcome {
    var lines := Lines(manifest);
    var output := Join(NewLines(lines, Urls(token, access.session, ids)), '\n') + "\n";
    var requested := Requested(lines, access, ids);
    if !configured || !AllowedLines(lines, rules) || |output| > MAX_BYTES then BadMedia
    else match store(requested)
      case Failed => StoreError
      case Created(mappings) =>
        if |mappings| != |requested| then Unavailable
        else if mappings == requested && forall k :: 0 <= k < |requested| ==> requested[k].id != "" then Playlist(output)
        else BadMedia
  }

  // ----- the rewriting can be undone

  /** What is after the last slash. */
  function LastPart(s: string): string {
    if s == [] || s[|s| - 1] == '/' then [] else LastPart(s[..|s| - 1]) + [s[|s| - 1]]
  }

  lemma {:induction false} LastPartAfter(a: string, b: string)
    requires '/' !in b
    ensures LastPart(a + "/" + b) == b
  {
    var s := a + "/" + b;
    if b != [] {
      LastPartAfter(a, b[..|b| - 1]);
      assert s[..|s| - 1] == a + "/" + b[..|b| - 1];
      assert b == b[..|b| - 1] + [b[|b| - 1]];
    }
  }

  /** A segment request: the gateway decodes the last part of the URL and resolves it
      among the stored mappings; a line that is a tag is kept. */
  function Restore(line: string, stored: seq<Mapping>): string {
    if IsTag(line) then line
    else
      var id := Unescape(LastPart(line));
      if id.None? then "" else PathOf(id.value, stored)
  }

  function PathOf(id: string, stored: seq<Mapping>): string {
    if stored == [] then "" else if stored[0].id == id then stored[0].path else PathOf(id, stored[1..])
  }

  function RestoreAll(lines: seq<string>, stored: seq<Mapping>): seq<string> {
    seq(|lines|, i requires 0 <= i < |lines| => Restore(lines[i], stored))
  }

  lemma {:induction false} PathOfOnly(stored: seq<Mapping>, k: nat)
    requires k < |stored| && forall i, j :: 0 <= i < j < |stored| ==> stored[i].id != stored[j].id
    ensures PathOf(stored[k].id, stored) == stored[k].path
  {
    if k > 0 {
      PathOfOnly(stored[1..], k - 1);
    }
  }

  lemma UrlRoundTrip(token: string, session: string, id: string)
    requires Bytes(id)
    ensures !IsTag(Url(token, session, id))
    ensures Unescape(LastPart(Url(token, session, id))) == Some(id)
  {
    var front := "/media/v1/" + Encode(token, PathSegment) + "/" + Encode(session, PathSegment) + "/segments";
    EncodeLacks(id, PathSegment, '/');
    LastPartAfter(front, Encode(id, PathSegment));
    assert Url(token, session, id) == front + "/" + Encode(id, PathSegment);
    assert Url(token, session, id)[0] == '/';
    EncodeRoundTrip(id, PathSegment);
  }

  lemma UrlIsOneLine(token: string, session: string, id: string)
    ensures '\n' !in Url(token, session, id)
  {
    EncodeLacks(token, PathSegment, '\n');
    EncodeLacks(session, PathSegment, '\n');
    EncodeLacks(id, PathSegment, '\n');
  }

  /** uuid.NewString: distinct values, as many as asked for. */
  ghost predicate Fresh(ids: nat -> string) {
    && (forall i: nat :: ids(i) != "" && Bytes(ids(i)))
    && (forall i: nat, j: nat :: i != j ==> ids(i) != ids(j))
  }

  lemma LineRestored(lines: seq<string>, i: nat, access: Access, token: string, ids: nat -> string)
    requires Fresh(ids) && i < |lines|
    ensures Restore(NewLine(lines, i, Urls(token, access.session, ids)), Requested(lines, access, ids)) == lines[i]
  {
    if !IsTag(lines[i]) {
      var k, requested := Rank(lines, i), Requested(lines, access, ids);
      SegmentsForth(lines, i);
      UrlRoundTrip(token, access.session, ids(k));
      PathOfOnly(requested, k);
      assert requested[k].id == ids(k) && requested[k].path == lines[i];
    }
  }

  lemma NewLinesJoin(manifest: string, token: string, session: string, ids: nat -> string)
    ensures var lines := NewLines(Lines(manifest), Urls(token, session, ids));
      lines != [] && Split(Join(lines, '\n'), '\n') == lines
  {
    var given, lines := Lines(manifest), NewLines(Lines(manifest), Urls(token, session, ids));
    JoinSplit(Normalised(manifest), '\n');
    forall i | 0 <= i < |lines| ensures '\n' !in lines[i] {
      UrlIsOneLine(token, session, ids(Rank(given, i)));
    }
    SplitJoin(lines, '\n');
  }

  lemma LinesRestored(manifest: string, access: Access, token: string, ids: nat -> string)
    requires Fresh(ids)
    ensures var before, after := Lines(manifest), NewLines(Lines(manifest), Urls(token, access.session, ids));
      && Split(TrimNewline(Join(after, '\n') + "\n"), '\n') == after
      && RestoreAll(after, Requested(before, access, ids)) == before
      && Join(before, '\n') == Normalised(manifest)
  {
    var before, requested := Lines(manifest), Requested(Lines(manifest), access, ids);
    var after := NewLines(before, Urls(token, access.session, ids));
    NewLinesJoin(manifest, token, access.session, ids);
    assert TrimNewline(Join(after, '\n') + "\n") == Join(after, '\n');
    forall i | 0 <= i < |after| ensures Restore(after[i], requested) == before[i] {
      LineRestored(before, i, access, token, ids);
    }
    JoinSplit(Normalised(manifest), '\n');
  }

  /** Main result. An answered playlist has as many lines as the input, keeps every tag
      line where it was, and asks each segment line of the gateway; resolving every URL
      in it through the stored mappings gives back the normalised input. */
  lemma RewriteRoundTrip(access: Access, token: string, manifest: string, configured: bool, ids: nat -> string, store: seq<Mapping> -> Stored, rules: Rules)
    requires Fresh(ids)
    requires Rewrite(access, token, manifest, configured, ids, store, rules).Playlist?
    ensures var text := Rewrite(access, token, manifest, configured, ids, store, rules).text;
      var stored := store(Requested(Lines(manifest), access, ids));
      var before, after := Lines(manifest), Split(TrimNewline(text), '\n');
      && |text| <= MAX_BYTES && stored.Created? && |after| == |before|
      && (forall i :: 0 <= i < |after| && IsTag(before[i]) ==> after[i] == before[i])
      && (forall i :: 0 <= i < |after| && !IsTag(before[i]) ==> Prefix(token, access.session) <= after[i])
      && Join(RestoreAll(after, stored.mappings), '\n') == Normalised(manifest)
  {
    LinesRestored(manifest, access, token, ids);
    LinesKept(Lines(manifest), access, token, ids);
  }

  lemma LinesKept(lines: seq<string>, access: Access, token: string, ids: nat -> string)
    ensures var after := NewLines(lines, Urls(token, access.session, ids));
      && |after| == |lines|
      && (forall i :: 0 <= i < |lines| && IsTag(lines[i]) ==> after[i] == lines[i])
      && (forall i :: 0 <= i < |lines| && !IsTag(lines[i]) ==> Prefix(token, access.session) <= after[i])
  {
    forall i | 0 <= i < |lines| && !IsTag(lines[i])
      ensures Prefix(token, access.session) <= NewLines(lines, Urls(token, access.session, ids))[i]
    {
      assert NewLines(lines, Urls(token, access.session, ids))[i] == Prefix(token, access.session) + Encode(ids(Rank(lines, i)), PathSegment);
    }
  }

  /** Dropping every carriage return. */
  function WithoutReturns(s: string): string {
    if s == [] then [] else (if s[0] == '\r' then [] else [s[0]]) + WithoutReturns(s[1..])
  }

  lemma {:induction false} UnixDropsReturns(s: string)
    requires '\r' !in Unix(s)
    ensures Unix(s) == WithoutReturns(s)
  {
    if |s| == 1 {
      assert Unix(s) == s && s[1..] == [] && WithoutReturns([]) == [];
    } else if |s| >= 2 {
      if s[0] == '\r' && s[1] == '\n' {
        UnixDropsReturns(s[2..]);
        assert s[1..][0] == '\n' && s[1..][1..] == s[2..];
      } else {
        UnixDropsReturns(s[1..]);
      }
    }
  }

  /** An answered playlist had a carriage return only in front of a newline, so the
      normalised input is the input without carriage returns and without a final newline. */
  lemma AnsweredInput(manifest: string, rules: Rules)
    requires AllowedLines(Lines(manifest), rules)
    ensures Normalised(manifest) == TrimNewline(WithoutReturns(manifest))
  {
    var text := Normalised(manifest);
    JoinSplit(text, '\n');
    JoinHas(Lines(manifest), '\n', '\r');
    UnixDropsReturns(manifest);
  }

  lemma {:induction false} JoinHas(parts: seq<string>, c: char, d: char)
    requires c != d && forall i :: 0 <= i < |parts| ==> d !in parts[i]
    ensures d !in Join(parts, c)
  {
    if |parts| > 1 {
      JoinHas(parts[1..], c, d);
    }
  }

  // ----- the loops

  lemma SegmentsOfMore(lines: seq<string>, i: nat)
    requires i < |lines|
    ensures Segments(lines[..i + 1]) == Segments(lines[..i]) + if IsTag(lines[i]) then [] else [i]
  {
    assert lines[..i + 1][..i] == lines[..i];
  }

  method FindSegments(lines: seq<string>, rules: Rules) returns (ok: bool, segmentLines: seq<nat>)
    requires lines != [] && lines[0] == "#EXTM3U"
    ensures ok == AllowedLines(lines, rules)
    ensures ok ==> segmentLines == Segments(lines)
  {
    segmentLines := [];
    for i := 0 to |lines|
      invariant forall j :: 0 <= j < i ==> AllowedLine(lines[j], rules)
      invariant segmentLines == Segments(lines[..i])
    {
      var line := lines[i];
      SegmentsOfMore(lines, i);
      if '\0' in line || '\r' in line { return false, []; }
      if IsTag(line) {
        if !rules.tag(line) { return false, []; }
        continue;
      }
      if i == 0 || line == "" || !rules.path(line) { return false, []; }
      segmentLines := segmentLines + [i];
    }
    assert lines[..|lines|] == lines;
    ok := true;
  }

  /** The lines after the first `k` segment lines have been replaced. */
  function Partly(lines: seq<string>, url: nat -> string, k: nat): seq<string> {
    seq(|lines|, i requires 0 <= i < |lines| =>
      if !IsTag(lines[i]) && Rank(lines, i) < k then url(Rank(lines, i)) else lines[i])
  }

  lemma PartlyNext(lines: seq<string>, url: nat -> string, k: nat)
    requires k < |Segments(lines)|
    ensures Segments(lines)[k] < |lines|
    ensures Partly(lines, url, k + 1) == Partly(lines, url, k)[Segments(lines)[k] := url(k)]
  {
    SegmentsBack(lines, k);
    forall i | 0 <= i < |lines| && !IsTag(lines[i]) && Rank(lines, i) == k ensures i == Segments(lines)[k] {
      SegmentsForth(lines, i);
    }
  }

  lemma PartlyEnds(lines: seq<string>, url: nat -> string)
    ensures Partly(lines, url, 0) == lines
    ensures Partly(lines, url, |Segments(lines)|) == NewLines(lines, url)
  {
    forall i | 0 <= i < |lines| && !IsTag(lines[i]) ensures Rank(lines, i) < |Segments(lines)| {
      SegmentsForth(lines, i);
    }
  }

  lemma RequestedNext(lines: seq<string>, access: Access, ids: nat -> string, k: nat)
    requires k < |Segments(lines)|
    ensures var at := Segments(lines)[k];
      && at < |lines|
      && Requested(lines, access, ids)[..k + 1] ==
         Requested(lines, access, ids)[..k] + [Mapping(ids(k), access.session, access.stream, access.version, lines[at])]
  {
    SegmentsBack(lines, k);
  }

  method ReplaceSegments(lines: seq<string>, segmentLines: seq<nat>, access: Access, url: nat -> string, ids: nat -> string)
    returns (rewritten: array<string>, mappings: seq<Mapping>)
    requires segmentLines == Segments(lines)
    ensures rewritten[..] == NewLines(lines, url)
    ensures mappings == Requested(lines, access, ids)
  {
    mappings := [];
    rewritten := new string[|lines|](i requires 0 <= i < |lines| => lines[i]);
    PartlyEnds(lines, url);
    assert rewritten[..] == lines;
    for k := 0 to |segmentLines|
      invariant mappings == Requested(lines, access, ids)[..k]
      invariant rewritten[..] == Partly(lines, url, k)
    {
      var at := segmentLines[k];
      PartlyNext(lines, url, k);
      RequestedNext(lines, access, ids, k);
      mappings := mappings + [Mapping(ids(k), access.session, access.stream, access.version, lines[at])];
      rewritten[at] := url(k);
    }
  }

  method RewriteManifest(access: Access, token: string, manifest: string, configured: bool, ids: nat -> string, store: seq<Mapping> -> Stored, rules: Rules)
    returns (r: Outcome)
    ensures r == Rewrite(access, token, manifest, configured, ids, store, rules)
  {
    var lines := Lines(manifest);
    if lines[0] != "#EXTM3U" || !configured { return BadMedia; }
    var ok, segmentLines := FindSegments(lines, rules);
    if !ok { return BadMedia; }
    var rewritten, mappings := ReplaceSegments(lines, segmentLines, access, Urls(token, access.session, ids), ids);
    var output := Join(rewritten[..], '\n') + "\n";
    if |output| > MAX_BYTES { return BadMedia; }
    var answer := store(mappings);
    if answer.Failed? { return StoreError; }
    var created := answer.mappings;
    if |created| != |mappings| { return Unavailable; }
    for i := 0 to |created|
      invariant forall j :: 0 <= j < i ==> created[j] == mappings[j] && mappings[j].id != ""
    {
      var mapping, requested := created[i], mappings[i];
      if mapping.id == "" || mapping.id != requested.id || mapping.session != access.session
        || mapping.stream != access.stream || mapping.version != access.version
        || mapping.path != requested.path || !rules.path(mapping.path) {
        SegmentsBack(lines, i);
        return BadMedia;
      }
    }
    r := Playlist(output);
  }
}
