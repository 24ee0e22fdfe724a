/** What the playlist rewriter answers, written out line by line, and when it answers what. */
module ManifestOutcomes {
  import opened Prelude
  import opened Percent
  import opened Manifest

  /** The lines that are no tags, in order. */
  function Paths(lines: seq<string>): seq<string> {
    if lines == [] then []
    else
      var n := |lines| - 1;
      if IsTag(lines[n]) then Paths(lines[..n]) else Paths(lines[..n]) + [lines[n]]
  }

  /** What the store is asked to keep: one mapping for each of them, under the access of the caller. */
  function Wanted(paths: seq<string>, access: Access, ids: nat -> string): seq<Mapping> {
    seq(|paths|, k requires 0 <= k < |paths| => Mapping(ids(k), access.session, access.stream, access.version, paths[k]))
  }

  /** The answer: every tag line as it was, the URL of the next mapping for every other line. */
  function Written(lines: seq<string>, k: nat, token: string, session: string, ids: nat -> string): string {
    if lines == [] then ""
    else if IsTag(lines[0]) then lines[0] + "\n" + Written(lines[1..], k, token, session, ids)
    else
      "/media/v1/" + Encode(token, PathSegment) + "/" + Encode(session, PathSegment) + "/segments/" + Encode(ids(k), PathSegment) + "\n"
      + Written(lines[1..], k + 1, token, session, ids)
  }

  lemma {:induction false} PathsAreSegments(lines: seq<string>)
    ensures |Paths(lines)| == |Segments(lines)|
    ensures forall k :: 0 <= k < |Segments(lines)| ==> Segments(lines)[k] < |lines| && lines[Segments(lines)[k]] == Paths(lines)[k]
  {
    if lines != [] {
      var n := |lines| - 1;
      PathsAreSegments(lines[..n]);
    }
  }

  lemma RequestedIsWanted(lines: seq<string>, access: Access, ids: nat -> string)
    ensures Requested(lines, access, ids) == Wanted(Paths(lines), access, ids)
  {
    PathsAreSegments(lines);
  }

  lemma RankNext(lines: seq<string>, i: nat)
    requires i < |lines|
    ensures Rank(lines, i + 1) == Rank(lines, i) + if IsTag(lines[i]) then 0 else 1
  {
    SegmentsOfMore(lines, i);
  }

  lemma JoinFirst(parts: seq<string>, c: char)
    ensures parts != [] ==> Join(parts, c) + [c] == parts[0] + [c] + if |parts| == 1 then "" else Join(parts[1..], c) + [c]
  {}

  lemma {:induction false} RestIsWritten(lines: seq<string>, i: nat, token: string, session: string, ids: nat -> string)
    requires i < |lines|
    ensures Join(NewLines(lines, Urls(token, session, ids))[i..], '\n') + "\n" == Written(lines[i..], Rank(lines, i), token, session, ids)
    decreases |lines| - i
  {
    var after := NewLines(lines, Urls(token, session, ids));
    JoinFirst(after[i..], '\n');
    RankNext(lines, i);
    assert after[i..][1..] == after[i + 1..] && lines[i..][1..] == lines[i + 1..];
    if i + 1 < |lines| {
      RestIsWritten(lines, i + 1, token, session, ids);
    } else {
      assert lines[i + 1..] == [];
    }
  }

  lemma OutputIsWritten(lines: seq<string>, token: string, session: string, ids: nat -> string)
    requires lines != []
    ensures Join(NewLines(lines, Urls(token, session, ids)), '\n') + "\n" == Written(lines, 0, token, session, ids)
  {
    RestIsWritten(lines, 0, token, session, ids);
    assert NewLines(lines, Urls(token, session, ids))[0..] == NewLines(lines, Urls(token, session, ids));
    assert lines[0..] == lines && lines[..0] == [];
  }

  /** A media playlist of allowed tags and valid segment paths only. */
  ghost predicate Acceptable(lines: seq<string>, rules: Rules) {
    && lines != [] && lines[0] == "#EXTM3U"
    && forall i :: 0 <= i < |lines| ==> LineOk(lines[i], rules)
  }

  predicate LineOk(line: string, rules: Rules) {
    '\0' !in line && '\r' !in line && (if "#" <= line then rules.tag(line) else line != "" && rules.path(line))
  }

  lemma AcceptableIff(lines: seq<string>, rules: Rules)
    ensures Acceptable(lines, rules) <==> AllowedLines(lines, rules)
  {
    forall i | 0 <= i < |lines| ensures LineOk(lines[i], rules) <==> AllowedLine(lines[i], rules) {}
  }

  /** Main result. A playlist is answered exactly if the service is configured, every line is allowed, the
      answer is within the limit, and the store confirms just the mappings it was asked for; the answer is then
      the input line by line. Each other outcome has its own cause. */
  lemma AnsweredIff(access: Access, token: string, manifest: string, configured: bool, ids: nat -> string, store: seq<Mapping> -> Stored, rules: Rules)
    requires Fresh(ids)
    ensures var r := Rewrite(access, token, manifest, configured, ids, store, rules); var lines := Lines(manifest);
      var text, wanted := Written(lines, 0, token, access.session, ids), Wanted(Paths(lines), access, ids);
      var sound := configured && Acceptable(lines, rules) && |text| <= 256 * 1024;
      && (r.Playlist? <==> sound && store(wanted) == Created(wanted))
      && (r.Playlist? ==> r == Playlist(text))
      && (r == StoreError <==> sound && store(wanted).Failed?)
      && (r == Unavailable <==> sound && store(wanted).Created? && |store(wanted).mappings| != |wanted|)
  {
    var lines := Lines(manifest);
    RequestedIsWanted(lines, access, ids);
    AcceptableIff(lines, rules);
    OutputIsWritten(lines, token, access.session, ids);
  }
}
