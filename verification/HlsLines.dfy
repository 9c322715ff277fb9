/** Playlist text as lines, and the sorting of playlists into master, VOD, rolling and other that
    src/live.rs does twice: once to decide how to rewrite and once to decide what may be cached. */
module HlsLines {
  import opened Text

  // ---------------------------------------------------------------------------
  // Lines
  // ---------------------------------------------------------------------------

  function WithoutCr(line: string): string {
    if line != "" && line[|line| - 1] == '\r' then line[..|line| - 1] else line
  }

  /** `str::lines`: a line ends at '\n' or "\r\n"; text after the last '\n' is a line if it is not
      empty, and keeps a '\r' at its end. */
  function Lines(text: string): seq<string> {
    if text == "" then []
    else
      var i := IndexOfChar(text, '\n');
      if i == |text| then [text] else [WithoutCr(text[..i])] + Lines(text[i + 1..])
  }

  predicate CleanLine(line: string) {
    '\n' !in line && (line != "" ==> line[|line| - 1] != '\r')
  }

  predicate Clean(lines: seq<string>) { forall line | line in lines :: CleanLine(line) }

  /** `join("\n")` */
  function Unlines(lines: seq<string>): string { Join(lines, "\n") }

  lemma FirstLine(line: string, rest: string)
    requires '\n' !in line
    ensures Lines(line + "\n" + rest) == [WithoutCr(line)] + Lines(rest)
  {
    var s := line + "\n" + rest;
    assert s == line + ['\n'] + rest;
    IndexOfCharAt(line, rest, '\n');
    assert s[..|line|] == line && s[|line| + 1..] == rest;
  }

  lemma OnlyLine(line: string)
    requires '\n' !in line
    ensures Lines(line) == if line == "" then [] else [line]
  {
    IndexOfCharAt(line, "", '\n');
  }

  /** What joining lines and splitting them again does: a '\r' at the end of a line and an empty
      last line get lost. */
  function Resplit(lines: seq<string>): seq<string> {
    if lines == [] || lines == [""] then []
    else if |lines| == 1 then lines
    else [WithoutCr(lines[0])] + Resplit(lines[1..])
  }

  lemma {:induction false} LinesOfUnlines(lines: seq<string>)
    requires forall line | line in lines :: '\n' !in line
    ensures Lines(Unlines(lines)) == Resplit(lines)
  {
    if |lines| == 1 {
      OnlyLine(lines[0]);
    } else if |lines| > 1 {
      assert forall line | line in lines[1..] :: line in lines;
      LinesOfUnlines(lines[1..]);
      FirstLine(lines[0], Unlines(lines[1..]));
    }
  }

  /** Clean lines are read back, except for one empty line at the end. */
  lemma {:induction false} ResplitClean(lines: seq<string>)
    requires Clean(lines)
    ensures Resplit(lines) == lines
         || (lines != [] && lines[|lines| - 1] == "" && Resplit(lines) == lines[..|lines| - 1])
  {
    if |lines| > 1 {
      var rest := lines[1..];
      assert lines[0] in lines && lines == [lines[0]] + rest;
      assert forall line | line in rest :: line in lines;
      ResplitClean(rest);
      assert lines[..|lines| - 1] == [lines[0]] + rest[..|rest| - 1];
    }
  }

  /** No line holds a line feed. */
  lemma {:induction false} LinesHaveNoFeed(text: string)
    ensures forall line | line in Lines(text) :: '\n' !in line
  {
    var i := IndexOfChar(text, '\n');
    if text != "" && i < |text| {
      LinesHaveNoFeed(text[i + 1..]);
      assert forall c | c in WithoutCr(text[..i]) :: c in text[..i];
    } else if text != "" {
      assert text[..i] == text;
    }
  }

  // ---------------------------------------------------------------------------
  // The branches of the rewriter
  // ---------------------------------------------------------------------------

  const STREAM_INF := "#EXT-X-STREAM-INF"
  const EXTINF := "#EXTINF"
  const ENDLIST := "#EXT-X-ENDLIST"
  const TYPE_VOD := "#EXT-X-PLAYLIST-TYPE:VOD"

  predicate SameIgnoringCase(a: string, b: string) { ToLower(a) == ToLower(b) }

  predicate IsStreamInf(line: string) { StartsWith(TrimStart(line), STREAM_INF) }

  predicate IsExtinf(line: string) { StartsWith(TrimStart(line), EXTINF) }

  predicate IsVodMark(line: string) {
    SameIgnoringCase(Trim(line), ENDLIST) || SameIgnoringCase(Trim(line), TYPE_VOD)
  }

  datatype Branch = Master | Vod | Rolling | Other

  /** The branch `rewrite_live_hls_playlist` takes. */
  function BranchOf(lines: seq<string>): Branch {
    if exists line | line in lines :: IsStreamInf(line) then Master
    else if exists line | line in lines :: IsExtinf(line) then
      if exists line | line in lines :: IsVodMark(line) then Vod else Rolling
    else Other
  }

  predicate NoBlanks(s: string) { forall c | c in s :: !IsWhitespace(c) }

  /** Whether the end is trimmed too does not matter for a prefix without blanks. */
  lemma PrefixOfTrimmed(line: string, prefix: string)
    requires NoBlanks(prefix)
    ensures StartsWith(Trim(line), prefix) <==> StartsWith(TrimStart(line), prefix)
  {
    TrimCommutes(line);
    TrimEndShape(TrimStart(line));
    var long, short := TrimStart(line), TrimEnd(TrimStart(line));
    if |short| < |prefix| && |short| < |long| {
      assert prefix[|short|] in prefix && IsWhitespace(long[|short|]);
    }
  }

  lemma TrimIsMiddle(line: string) returns (i: nat)
    ensures i + |Trim(line)| <= |line| && Trim(line) == line[i..i + |Trim(line)|] && Trimmed(Trim(line))
    ensures forall k | 0 <= k < i || i + |Trim(line)| <= k < |line| :: IsWhitespace(line[k])
  {
    var a := TrimEnd(line);
    TrimEndShape(line);
    TrimStartShape(a);
    i := |a| - |TrimStart(a)|;
    assert forall k | 0 <= k < |a| :: line[k] == a[k];
  }

  lemma TrimIsMiddleToo(line: string) returns (i: nat)
    ensures var b := TrimEnd(TrimStart(line));
      && i + |b| <= |line| && b == line[i..i + |b|] && Trimmed(b)
      && forall k | 0 <= k < i || i + |b| <= k < |line| :: IsWhitespace(line[k])
  {
    var a := TrimStart(line);
    TrimStartShape(line);
    TrimEndShape(a);
    i := |line| - |a|;
    assert forall k | i <= k < |line| :: line[k] == a[k - i];
  }

  lemma TrimCommutes(line: string)
    ensures Trim(line) == TrimEnd(TrimStart(line))
  {
    var i := TrimIsMiddle(line);
    var j := TrimIsMiddleToo(line);
    SameTrim(line, Trim(line), i, TrimEnd(TrimStart(line)), j);
  }

  /** Two ways to cut blanks off both ends that leave none agree. */
  lemma SameTrim(line: string, a: string, i: nat, b: string, j: nat)
    requires i + |a| <= |line| && a == line[i..i + |a|] && Trimmed(a)
    requires j + |b| <= |line| && b == line[j..j + |b|] && Trimmed(b)
    requires forall k | 0 <= k < i || i + |a| <= k < |line| :: IsWhitespace(line[k])
    requires forall k | 0 <= k < j || j + |b| <= k < |line| :: IsWhitespace(line[k])
    ensures a == b
  {
    assert a != "" ==> !IsWhitespace(line[i]) && !IsWhitespace(line[i + |a| - 1]);
    assert b != "" ==> !IsWhitespace(line[j]) && !IsWhitespace(line[j + |b| - 1]);
  }

  lemma LowerAt(a: string, b: string, i: nat)
    requires SameIgnoringCase(a, b) && i < |b|
    ensures i < |a| && ToLowerChar(a[i]) == ToLowerChar(b[i])
  {
    assert |ToLower(a)| == |ToLower(b)|;
    assert ToLower(a)[i] == ToLower(b)[i];
  }

  lemma KindsOfLineAreDisjoint(line: string)
    ensures !(StartsWith(line, STREAM_INF) && StartsWith(line, EXTINF))
    ensures SameIgnoringCase(line, ENDLIST) || SameIgnoringCase(line, TYPE_VOD) ==>
              !StartsWith(line, STREAM_INF) && !StartsWith(line, EXTINF)
  {
    assert EXTINF[4] == 'I' && STREAM_INF[4] == '-' && ENDLIST[4] == '-' && TYPE_VOD[4] == '-';
    assert STREAM_INF[7] == 'S' && ENDLIST[7] == 'E' && TYPE_VOD[7] == 'P';
    if SameIgnoringCase(line, ENDLIST) { LowerAt(line, ENDLIST, 4); LowerAt(line, ENDLIST, 7); }
    if SameIgnoringCase(line, TYPE_VOD) { LowerAt(line, TYPE_VOD, 4); LowerAt(line, TYPE_VOD, 7); }
  }

  predicate AnyStreamInf(lines: seq<string>) { exists line | line in lines :: IsStreamInf(line) }
  predicate AnyExtinf(lines: seq<string>) { exists line | line in lines :: IsExtinf(line) }
  predicate AnyVodMark(lines: seq<string>) { exists line | line in lines :: IsVodMark(line) }

  lemma LineTests(line: string)
    ensures StartsWith(Trim(line), STREAM_INF) <==> IsStreamInf(line)
    ensures StartsWith(Trim(line), EXTINF) <==> IsExtinf(line)
    ensures !(IsStreamInf(line) && IsExtinf(line)) && (IsVodMark(line) ==> !IsStreamInf(line) && !IsExtinf(line))
  {
    PrefixOfTrimmed(line, STREAM_INF);
    PrefixOfTrimmed(line, EXTINF);
    KindsOfLineAreDisjoint(Trim(line));
  }

  lemma AnySnoc(lines: seq<string>, line: string)
    ensures AnyStreamInf(lines + [line]) <==> AnyStreamInf(lines) || IsStreamInf(line)
    ensures AnyExtinf(lines + [line]) <==> AnyExtinf(lines) || IsExtinf(line)
    ensures AnyVodMark(lines + [line]) <==> AnyVodMark(lines) || IsVodMark(line)
  {
    assert line in lines + [line] && forall l | l in lines :: l in lines + [line];
  }

  /** What may be cached is exactly what the rewriter treats as a master or a VOD playlist, although
      the two look at the lines in different ways. */
  method IsImmutable(playlist: string) returns (immutable: bool)
    ensures immutable <==> BranchOf(Lines(playlist)) == Master || BranchOf(Lines(playlist)) == Vod
  {
    var isMaster, isMedia, isVod := false, false, false;
    var lines := Lines(playlist);
    for i := 0 to |lines|
      invariant isMaster <==> AnyStreamInf(lines[..i])
      invariant isMedia <==> AnyExtinf(lines[..i])
      invariant isVod <==> AnyVodMark(lines[..i])
    {
      var trimmed := Trim(lines[i]);
      assert lines[..i + 1] == lines[..i] + [lines[i]];
      AnySnoc(lines[..i], lines[i]);
      LineTests(lines[i]);
      if StartsWith(trimmed, STREAM_INF) {
        isMaster := true;
      } else if StartsWith(trimmed, EXTINF) {
        isMedia := true;
      } else if SameIgnoringCase(trimmed, ENDLIST) || SameIgnoringCase(trimmed, TYPE_VOD) {
        isVod := true;
      }
    }
    assert lines[..|lines|] == lines;
    immutable := isMaster || (isMedia && isVod);
  }
}
