/** Two things that rewriting a media playlist must not change: whether the playlist may be cached, and
    that a player can fetch everything it names. */
module HlsTrust {
  import opened Text
  import opened Decimal
  import opened HlsLines
  import opened HlsUri
  import opened HlsAttributes
  import opened HlsMedia
  import opened HlsWindow
  import opened HlsVod
  import SignedUrl
  import FormUrl

  // ---------------------------------------------------------------------------
  // What becomes of the lines that decide about caching
  // ---------------------------------------------------------------------------

  /** A line that is written as a tag, or that resolves to no URL. An indented tag is none to the
      rewriter, which takes it for a URI. */
  predicate Survives(c: Context, kind: Kind, raw: string) {
    StartsWith(TrimEnd(raw), "#") || Child(c, kind, TrimEnd(raw)).None?
  }

  lemma TestsIgnoreEnd(line: string)
    ensures IsStreamInf(TrimEnd(line)) <==> IsStreamInf(line)
    ensures IsExtinf(TrimEnd(line)) <==> IsExtinf(line)
    ensures IsVodMark(TrimEnd(line)) <==> IsVodMark(line)
  {
    NotBlank(line);
    LineTests(line);
    LineTests(TrimEnd(line));
    assert Trim(TrimEnd(line)) == Trim(line);
  }

  lemma BlankTests()
    ensures !IsStreamInf("") && !IsExtinf("") && !IsVodMark("")
  {
    assert TrimStart("") == "" && Trim("") == "";
    assert |ToLower("")| == 0 && |ToLower(ENDLIST)| == |ENDLIST| && |ToLower(TYPE_VOD)| == |TYPE_VOD|;
  }

  lemma HashStartsTrimmed(line: string)
    requires StartsWith(line, "#") && TrimEnd(line) == line
    ensures TrimStart(line) == line && Trim(line) == line
  {
    assert line[0] == '#';
  }

  lemma QuoteStays(line: string, name: string)
    requires SameIgnoringCase(line, name) && '"' in line
    ensures '"' in name
  {
    var k :| 0 <= k < |line| && line[k] == '"';
    LowerAt(name, line, k);
    assert name[k] == '"';
  }

  lemma MarksHaveNoQuote(line: string)
    requires '"' in line
    ensures !SameIgnoringCase(line, ENDLIST) && !SameIgnoringCase(line, TYPE_VOD)
  {
    if SameIgnoringCase(line, ENDLIST) { QuoteStays(line, ENDLIST); }
    if SameIgnoringCase(line, TYPE_VOD) { QuoteStays(line, TYPE_VOD); }
  }

  lemma OtherFirstChar(line: string, name: string)
    requires line != "" && name != "" && name[0] == '#' && line[0] != '#'
    ensures !SameIgnoringCase(line, name)
  {
    assert ToLower(line)[0] == ToLowerChar(line[0]) && ToLower(name)[0] == '#';
  }

  lemma TagTests(c: Context, kind: Kind, line: string)
    requires StartsWith(line, "#") && TrimEnd(line) == line
    ensures var after := RewriteTag(c, kind, line);
      (IsStreamInf(after) <==> IsStreamInf(line)) && (IsExtinf(after) <==> IsExtinf(line))
      && (IsVodMark(after) <==> IsVodMark(line))
  {
    hide RewriteTag, SameIgnoringCase;
    var after := RewriteTag(c, kind, line);
    NamesHaveNoQuote();
    assert '"' !in STREAM_INF;
    RewrittenTagName(c, kind, line, "#");
    RewrittenTagName(c, kind, line, STREAM_INF);
    RewrittenTagName(c, kind, line, EXTINF);
    RewrittenTagText(c, kind, line);
    HashStartsTrimmed(line);
    HashStartsTrimmed(after);
    if after != line {
      MarksHaveNoQuote(line);
      MarksHaveNoQuote(after);
    }
  }

  lemma UriTests(line: string)
    requires line != "" && !IsWhitespace(line[0]) && line[0] != '#' && TrimEnd(line) == line
    ensures !IsStreamInf(line) && !IsExtinf(line) && !IsVodMark(line)
  {
    assert TrimStart(line) == line && Trim(line) == line;
    assert STREAM_INF[0] == '#' && EXTINF[0] == '#' && ENDLIST[0] == '#' && TYPE_VOD[0] == '#';
    OtherFirstChar(line, ENDLIST);
    OtherFirstChar(line, TYPE_VOD);
  }

  lemma ChildTests(c: Context, kind: Kind, line: string)
    requires ContextOk(c) && Child(c, kind, line).Some?
    ensures var child := Child(c, kind, line).value;
            !IsStreamInf(child) && !IsExtinf(child) && !IsVodMark(child)
  {
    hide IsStreamInf, IsExtinf, IsVodMark, Child;
    ChildUrlFacts(c, kind, line);
    UriTests(Child(c, kind, line).value);
  }

  lemma ChildUrlFacts(c: Context, kind: Kind, line: string)
    requires ContextOk(c) && Child(c, kind, line).Some?
    ensures var child := Child(c, kind, line).value;
            child != "" && !IsWhitespace(child[0]) && child[0] != '#' && TrimEnd(child) == child
  {
    hide ChildUrl;
    ChildUrlIsText(c, kind, line);
    EndIsFixed(Child(c, kind, line).value);
  }

  /** A rewritten line decides about caching as the line before did, if that survives. */
  lemma RewrittenLineTests(c: Context, kind: Kind, raw: string)
    requires ContextOk(c)
    ensures var after := RewriteLine(c, kind, raw);
      && (IsStreamInf(after) <==> IsStreamInf(raw) && Survives(c, kind, raw))
      && (IsExtinf(after) <==> IsExtinf(raw) && Survives(c, kind, raw))
      && (IsVodMark(after) <==> IsVodMark(raw) && Survives(c, kind, raw))
  {
    hide RewriteTag, Child, IsStreamInf, IsExtinf, IsVodMark;
    var line := TrimEnd(raw);
    NotBlank(raw);
    TestsIgnoreEnd(raw);
    BlankTests();
    if line != "" {
      if StartsWith(line, "#") {
        TagTests(c, kind, line);
      } else if Child(c, kind, line).Some? {
        ChildTests(c, kind, line);
      }
    }
  }

  // ---------------------------------------------------------------------------
  // A VOD playlist
  // ---------------------------------------------------------------------------

  lemma CrTests(line: string)
    ensures IsStreamInf(WithoutCr(line)) <==> IsStreamInf(line)
    ensures IsExtinf(WithoutCr(line)) <==> IsExtinf(line)
    ensures IsVodMark(WithoutCr(line)) <==> IsVodMark(line)
  {
    hide IsStreamInf, IsExtinf, IsVodMark;
    TestsIgnoreEnd(line);
    TestsIgnoreEnd(WithoutCr(line));
    assert TrimEnd(WithoutCr(line)) == TrimEnd(line);
  }

  lemma AnyCons(line: string, lines: seq<string>)
    ensures AnyStreamInf([line] + lines) <==> IsStreamInf(line) || AnyStreamInf(lines)
    ensures AnyExtinf([line] + lines) <==> IsExtinf(line) || AnyExtinf(lines)
    ensures AnyVodMark([line] + lines) <==> IsVodMark(line) || AnyVodMark(lines)
  {
    hide IsStreamInf, IsExtinf, IsVodMark;
    assert line in [line] + lines && forall l | l in lines :: l in [line] + lines;
  }

  lemma AnyOfNone()
    ensures !AnyStreamInf([]) && !AnyExtinf([]) && !AnyVodMark([])
  {
  }

  /** Splitting joined lines again changes no decision about caching. */
  lemma {:induction false} ResplitTests(lines: seq<string>)
    ensures AnyStreamInf(Resplit(lines)) <==> AnyStreamInf(lines)
    ensures AnyExtinf(Resplit(lines)) <==> AnyExtinf(lines)
    ensures AnyVodMark(Resplit(lines)) <==> AnyVodMark(lines)
  {
    hide AnyStreamInf, AnyExtinf, AnyVodMark, IsStreamInf, IsExtinf, IsVodMark, WithoutCr;
    AnyOfNone();
    if lines == [""] {
      BlankTests();
      AnyCons("", []);
      assert [""] + [] == [""];
    } else if |lines| > 1 {
      ResplitTests(lines[1..]);
      CrTests(lines[0]);
      AnyCons(lines[0], lines[1..]);
      AnyCons(WithoutCr(lines[0]), Resplit(lines[1..]));
      assert lines == [lines[0]] + lines[1..];
    }
  }

  lemma BranchByTests(lines: seq<string>)
    ensures BranchOf(lines) == if AnyStreamInf(lines) then Master
                               else if AnyExtinf(lines) then (if AnyVodMark(lines) then Vod else Rolling) else Other
  {
    hide IsStreamInf, IsExtinf, IsVodMark;
  }

  lemma ResplitBranch(lines: seq<string>)
    requires forall line | line in lines :: '\n' !in line
    ensures BranchOf(Lines(Unlines(lines))) == BranchOf(lines)
  {
    hide BranchOf, AnyStreamInf, AnyExtinf, AnyVodMark, Lines, Unlines, Resplit;
    LinesOfUnlines(lines);
    ResplitTests(lines);
    BranchByTests(lines);
    BranchByTests(Resplit(lines));
  }

  lemma VodLineTests(c: Context, lines: seq<string>)
    requires ContextOk(c)
    ensures AnyStreamInf(VodLines(c, lines)) ==> AnyStreamInf(lines)
    ensures AnyExtinf(VodLines(c, lines))
            <==> exists raw | raw in lines :: IsExtinf(raw) && Survives(c, VodResource, raw)
    ensures AnyVodMark(VodLines(c, lines))
            <==> exists raw | raw in lines :: IsVodMark(raw) && Survives(c, VodResource, raw)
  {
    hide IsStreamInf, IsExtinf, IsVodMark, Survives, RewriteLine;
    forall i | 0 <= i < |lines|
      ensures lines[i] in lines && RewriteLine(c, VodResource, lines[i]) in VodLines(c, lines)
    {
      assert VodLines(c, lines)[i] == RewriteLine(c, VodResource, lines[i]);
    }
    forall raw ensures var after := RewriteLine(c, VodResource, raw);
      && (IsStreamInf(after) <==> IsStreamInf(raw) && Survives(c, VodResource, raw))
      && (IsExtinf(after) <==> IsExtinf(raw) && Survives(c, VodResource, raw))
      && (IsVodMark(after) <==> IsVodMark(raw) && Survives(c, VodResource, raw))
    {
      RewrittenLineTests(c, VodResource, raw);
    }
  }

  lemma VodLinesHaveNoFeed(c: Context, lines: seq<string>)
    requires ContextOk(c) && forall line | line in lines :: '\n' !in line
    ensures forall line | line in VodLines(c, lines) :: '\n' !in line
  {
    hide RewriteLine;
    forall line | line in VodLines(c, lines) ensures '\n' !in line {
      var i :| 0 <= i < |lines| && line == RewriteLine(c, VodResource, lines[i]);
      assert lines[i] in lines;
      RewrittenLineIsClean(c, VodResource, lines[i]);
    }
  }

  /** A rewritten VOD playlist is one that may be cached exactly when an EXTINF and a VOD mark survive. */
  lemma VodStaysVodExactly(c: Context, playlist: string)
    requires ContextOk(c) && BranchOf(Lines(playlist)) == Vod
    ensures var lines, after := Lines(playlist), BranchOf(Lines(Unlines(VodLines(c, Lines(playlist)))));
      && after != Master
      && (after == Vod <==>
            ((exists raw | raw in lines :: IsExtinf(raw) && Survives(c, VodResource, raw))
             && (exists raw | raw in lines :: IsVodMark(raw) && Survives(c, VodResource, raw))))
  {
    hide Lines, Unlines, IsStreamInf, IsExtinf, IsVodMark, Survives, BranchOf;
    LinesHaveNoFeed(playlist);
    VodLinesHaveNoFeed(c, Lines(playlist));
    ResplitBranch(VodLines(c, Lines(playlist)));
    VodLineTests(c, Lines(playlist));
    BranchByTests(Lines(playlist));
    BranchByTests(VodLines(c, Lines(playlist)));
  }

  /** In particular when none of its tags is indented. */
  lemma VodStaysVod(c: Context, playlist: string)
    requires ContextOk(c) && BranchOf(Lines(playlist)) == Vod
    requires forall raw | raw in Lines(playlist) && IsTag(TrimStart(raw)) :: IsTag(raw)
    ensures BranchOf(Lines(Unlines(VodLines(c, Lines(playlist))))) == Vod
  {
    var lines := Lines(playlist);
    VodStaysVodExactly(c, playlist);
    var extinf :| extinf in lines && IsExtinf(extinf);
    var mark :| mark in lines && IsVodMark(mark);
    TestedLinesAreTags(extinf);
    TestedLinesAreTags(mark);
  }

  predicate IsTag(line: string) { line != "" && line[0] == '#' }

  lemma TestedLinesAreTags(line: string)
    requires IsExtinf(line) || IsVodMark(line)
    ensures IsTag(TrimStart(line))
    ensures IsTag(line) ==> StartsWith(TrimEnd(line), "#")
  {
    if IsExtinf(line) {
      assert EXTINF[0] == '#';
    } else {
      var trimmed := Trim(line);
      assert ENDLIST[0] == '#' && TYPE_VOD[0] == '#';
      if SameIgnoringCase(trimmed, ENDLIST) { LowerAt(trimmed, ENDLIST, 0); } else { LowerAt(trimmed, TYPE_VOD, 0); }
      assert trimmed[0] == '#';
      TrimCommutes(line);
      TrimEndShape(TrimStart(line));
    }
    TrimEndShape(line);
  }

  lemma ExtinfFacts(extinf: string)
    requires extinf == "#EXTINF:4,"
    ensures IsExtinf(extinf) && TrimEnd(extinf) == extinf && StartsWith(extinf, "#")
  {
    assert extinf[0] == '#' && extinf[9] == ',' && extinf[..7] == EXTINF;
    EndIsFixed(extinf);
    HashStartsTrimmed(extinf);
  }

  lemma Indented(s: string)
    requires Trimmed(s) && s != ""
    ensures Trim(" " + s) == s && TrimEnd(" " + s) == " " + s
  {
    TrimmedIsFixed(s);
    EndIsFixed(" " + s);
    assert (" " + s)[1..] == s;
  }

  lemma IndentedMarkFacts(mark: string)
    requires mark == " #EXT-X-ENDLIST"
    ensures IsVodMark(mark) && TrimEnd(mark) == mark && !StartsWith(mark, "#")
  {
    assert |ENDLIST| == 14 && ENDLIST[0] == '#' && ENDLIST[13] == 'T';
    Indented(ENDLIST);
    assert " " + ENDLIST == mark;
    assert mark[0] == ' ';
  }

  /** An indented end mark is taken for a URI, and the playlist that was cacheable upstream reads as a
      live one after the rewrite. */
  lemma IndentedMarkIsLost(c: Context, segment: string)
    requires ContextOk(c) && segment != "" && segment[0] != '#' && Trimmed(segment)
    requires Child(c, VodResource, " #EXT-X-ENDLIST").Some?
    ensures var lines := ["#EXTINF:4,", segment, " #EXT-X-ENDLIST"];
            BranchOf(lines) == Vod && BranchOf(VodLines(c, lines)) == Rolling
  {
    hide Child, VodLines, BranchOf, IsStreamInf, IsExtinf, IsVodMark, AnyStreamInf;
    var extinf, mark := "#EXTINF:4,", " #EXT-X-ENDLIST";
    var lines := [extinf, segment, mark];
    ExtinfFacts(extinf);
    IndentedMarkFacts(mark);
    TrimmedIsFixed(segment);
    UriTests(segment);
    LineTests(extinf);
    LineTests(mark);
    TestsOf(lines, extinf, segment, mark);
    VodLineTests(c, lines);
    NoneIs(lines);
    BranchByTests(lines);
    BranchByTests(VodLines(c, lines));
    assert Survives(c, VodResource, extinf);
    assert !StartsWith(TrimEnd(mark), "#") && Child(c, VodResource, TrimEnd(mark)).Some?;
    assert !Survives(c, VodResource, mark);
  }

  lemma NoneIs(lines: seq<string>)
    ensures AnyStreamInf(lines) <==> exists line | line in lines :: IsStreamInf(line)
  {
  }

  lemma TestsOf(lines: seq<string>, extinf: string, segment: string, mark: string)
    requires lines == [extinf, segment, mark]
    ensures forall line :: line in lines <==> line == extinf || line == segment || line == mark
  {
    assert lines[0] == extinf && lines[1] == segment && lines[2] == mark;
  }

  // ---------------------------------------------------------------------------
  // A rolling playlist
  // ---------------------------------------------------------------------------

  /** Lines of a reading that a player keeps as text. */
  predicate Mentions(r: Reading, line: string) {
    line in r.header || line in r.pending || exists s | s in r.segments :: line in s.tags || line == s.uri
  }

  lemma ReadLineGrows(r: Reading, raw: string)
    ensures var after, line := ReadLine(r, raw), TrimEnd(raw);
      && after.header in [r.header, r.header + [line]]
      && after.pending in [r.pending, r.pending + [line], []]
      && after.segments in [r.segments, r.segments + [Segment(r.pending, line)]]
  {
    hide SegmentTag, SequenceOf;
  }

  lemma MentionsGrow(r: Reading, raw: string, line: string)
    requires Mentions(ReadLine(r, raw), line)
    ensures Mentions(r, line) || line == TrimEnd(raw)
  {
    hide ReadLine;
    ReadLineGrows(r, raw);
    var after := ReadLine(r, raw);
    if s :| s in after.segments && (line in s.tags || line == s.uri) {
      assert s in r.segments || s == Segment(r.pending, TrimEnd(raw));
    }
  }

  /** Everything a player keeps stood on some line. */
  lemma {:induction false} MentionedLines(lines: seq<string>, line: string)
    requires Mentions(Read(lines), line)
    ensures exists raw | raw in lines :: TrimEnd(raw) == line
  {
    if lines != [] {
      hide Mentions, ReadLine;
      var front, last := lines[..|lines| - 1], lines[|lines| - 1];
      MentionsGrow(Read(front), last, line);
      if Mentions(Read(front), line) {
        MentionedLines(front, line);
        var raw :| raw in front && TrimEnd(raw) == line;
        assert raw in lines;
      } else {
        assert last in lines;
      }
    }
  }

  predicate Added(f: Floats, r: Reading, line: string) {
    line == EXTM3U || line in StartLines(f, Window(f, r)) || line == SequenceLine(r.sequence + Dropped(|r.segments|))
  }

  lemma FlattenedLine(segments: seq<Segment>, line: string)
    requires line in Flatten(BlocksOf(segments))
    ensures exists s | s in segments :: line in s.tags || line == s.uri
    decreases |segments|
  {
    if segments != [] {
      var front, last := segments[..|segments| - 1], segments[|segments| - 1];
      assert segments == front + [last];
      BlocksSnoc(front, last);
      assert last in segments && forall s | s in front :: s in segments;
      if line !in Block(last) { FlattenedLine(front, line); }
    }
  }

  lemma MappedTag(c: Context, kind: Kind, tags: seq<string>, line: string) returns (tag: string)
    requires line in RewriteTags(c, kind, tags)
    ensures tag in tags && line == RewriteTag(c, kind, tag)
  {
    var i :| 0 <= i < |tags| && line == RewriteTag(c, kind, tags[i]);
    tag := tags[i];
  }

  /** A served line was added, or is a rewritten upstream line. */
  lemma ServedLine(c: Context, f: Floats, r: Reading, line: string) returns (before: string)
    requires OkReading(r) && line in Served(c, f, r)
    ensures Added(f, r, line) || (Mentions(r, before) && line == RewriteLine(c, Resource,
        before) && TrimEnd(before) == before
                                  && before != "")
  {
    hide RewriteTag, RewriteUriLine, Flatten, SequenceLine, StartLines, Window, SegmentTag;
    before := "";
    ServedParts(c, f, r);
    if line in RewriteTags(c, Resource, r.header) {
      before := MappedTag(c, Resource, r.header, line);
      TagIsRewritten(c, Resource, before);
    } else if line in Flatten(BlocksOf(ServedSegments(c, r))) {
      FlattenedLine(ServedSegments(c, r), line);
      var s :| s in ServedSegments(c, r) && (line in s.tags || line == s.uri);
      var i :| 0 <= i < |Kept(r)| && s == RewriteSegment(c, Resource, Kept(r)[i]);
      assert Kept(r)[i] in r.segments;
      if line in s.tags {
        before := MappedTag(c, Resource, Kept(r)[i].tags, line);
        TagIsRewritten(c, Resource, before);
      } else {
        before := Kept(r)[i].uri;
        UriIsRewritten(c, Resource, before);
      }
    }
  }

  lemma TagIsRewritten(c: Context, kind: Kind, line: string)
    requires TagLine(line)
    ensures RewriteLine(c, kind, line) == RewriteTag(c, kind, line) && line != ""
  {
    OneCharPrefix(line, '#');
    NotBlank(line);
  }

  lemma UriIsRewritten(c: Context, kind: Kind, line: string)
    requires UriLine(line)
    ensures RewriteLine(c, kind, line) == RewriteUriLine(c, kind, line)
  {
    OneCharPrefix(line, '#');
    NotBlank(line);
  }

  lemma SequenceTests(n: int)
    ensures !IsStreamInf(SequenceLine(n)) && !IsVodMark(SequenceLine(n))
  {
    hide IntToString, IsStreamInf, IsVodMark;
    ReadSequenceLine(NOTHING, n);
    var line, digits := SequenceLine(n), IntToString(WrapI64(n));
    assert line == MEDIA_SEQUENCE + digits;
    assert MEDIA_SEQUENCE[0] == '#' && MEDIA_SEQUENCE[7] == 'M' && MEDIA_SEQUENCE[8] == 'E' && |MEDIA_SEQUENCE| > 9;
    assert line[0] == MEDIA_SEQUENCE[0] && line[7] == MEDIA_SEQUENCE[7] && line[8] == MEDIA_SEQUENCE[8];
    NamedTests(line);
  }

  lemma StartTests(line: string)
    requires START_TAG <= line && TrimEnd(line) == line
    ensures !IsStreamInf(line) && !IsVodMark(line)
  {
    hide IsStreamInf, IsVodMark;
    assert START_TAG[0] == '#' && START_TAG[7] == 'S' && START_TAG[8] == 'T' && START_TAG[9] == 'A' && |START_TAG| > 9;
    assert line[0] == START_TAG[0] && line[7] == START_TAG[7] && line[8] == START_TAG[8] && line[9] == START_TAG[9];
    NamedTests(line);
  }

  lemma StartLineIs(f: Floats, window: F64, line: string)
    requires line in StartLines(f, window)
    ensures START_TAG <= line
  {
  }

  lemma AddedTests(f: Floats, r: Reading, line: string)
    requires PrintsDigits(f) && Added(f, r, line)
    ensures !IsStreamInf(line) && !IsVodMark(line)
  {
    hide SequenceLine, StartLines, IsStreamInf, IsVodMark, Window;
    OpenTests();
    SequenceTests(r.sequence + Dropped(|r.segments|));
    if line in StartLines(f, Window(f, r)) {
      StartLinesAreHeaderTags(f, Window(f, r));
      StartLineIs(f, Window(f, r), line);
      StartTests(line);
    }
  }

  lemma OpenTests()
    ensures !IsStreamInf(EXTM3U) && !IsVodMark(EXTM3U)
  {
    assert |EXTM3U| == 7 && EXTM3U[0] == '#' && EXTM3U[6] == 'U';
    EndIsFixed(EXTM3U);
    HashStartsTrimmed(EXTM3U);
    assert |STREAM_INF| > 7 && |ENDLIST| > 7 && |TYPE_VOD| > 7;
    assert |ToLower(EXTM3U)| == 7 && |ToLower(ENDLIST)| > 7 && |ToLower(TYPE_VOD)| > 7;
  }

  /** A tag whose name goes on after "#EXT-X-" with "ME" or "ST" and a third letter that is not R. */
  lemma NamedTests(line: string)
    requires |line| > 9 && line[0] == '#' && TrimEnd(line) == line
    requires (line[7] == 'M' && line[8] == 'E') || (line[7] == 'S' && line[8] == 'T' && line[9] == 'A')
    ensures !IsStreamInf(line) && !IsVodMark(line)
  {
    OneCharPrefix(line, '#');
    HashStartsTrimmed(line);
    assert STREAM_INF[7] == 'S' && STREAM_INF[9] == 'R';
    NotPrefix(STREAM_INF, line, if line[7] == 'M' then 7 else 9);
    OtherChar(line, ENDLIST, 7);
    OtherChar(line, TYPE_VOD, 7);
  }

  lemma OtherChar(line: string, name: string, i: nat)
    requires i < |name| && i < |line| && ToLowerChar(line[i]) != ToLowerChar(name[i])
    ensures !SameIgnoringCase(line, name)
  {
    assert ToLower(line)[i] == ToLowerChar(line[i]) && ToLower(name)[i] == ToLowerChar(name[i]);
  }

  /** A line that decides about caching before or after the rewrite. */
  lemma ServedLineTests(c: Context, f: Floats, lines: seq<string>, line: string)
    requires ContextOk(c) && PrintsDigits(f) && OkReading(Read(lines)) && line in Served(c, f, Read(lines))
    ensures IsStreamInf(line) ==> AnyStreamInf(lines)
    ensures IsVodMark(line) ==> AnyVodMark(lines)
  {
    hide Served, Added, OkReading, IsStreamInf, IsVodMark, IsExtinf, RewriteLine, Survives, Mentions;
    var before := ServedLine(c, f, Read(lines), line);
    if Added(f, Read(lines), line) {
      AddedTests(f, Read(lines), line);
    } else {
      MentionedLines(lines, before);
      var raw :| raw in lines && TrimEnd(raw) == before;
      TestsIgnoreEnd(raw);
      RewrittenLineTests(c, Resource, before);
    }
  }

  lemma ServedTests(c: Context, f: Floats, lines: seq<string>)
    requires ContextOk(c) && PrintsDigits(f) && OkReading(Read(lines))
    ensures AnyStreamInf(Served(c, f, Read(lines))) ==> AnyStreamInf(lines)
    ensures AnyVodMark(Served(c, f, Read(lines))) ==> AnyVodMark(lines)
  {
    hide Served, OkReading, IsStreamInf, IsVodMark, Read;
    forall line | line in Served(c, f, Read(lines))
      ensures (IsStreamInf(line) ==> AnyStreamInf(lines)) && (IsVodMark(line) ==> AnyVodMark(lines))
    {
      ServedLineTests(c, f, lines, line);
    }
  }

  /** The text the rolling branch returns. */
  function RollingText(c: Context, f: Floats, lines: seq<string>): string {
    if Read(lines).segments == [] then Unlines(lines) else Unlines(Served(c, f, Read(lines)))
  }

  /** A live playlist never reads as cacheable after the rewrite. */
  lemma RollingIsNeverCacheable(c: Context, f: Floats, playlist: string)
    requires ContextOk(c) && PrintsDigits(f) && BranchOf(Lines(playlist)) == Rolling
    ensures var after := BranchOf(Lines(RollingText(c, f, Lines(playlist)))); after != Master && after != Vod
  {
    hide Served, OkReading, AnyStreamInf, AnyVodMark, AnyExtinf, Read, BranchOf, Lines, Unlines;
    var lines := Lines(playlist);
    LinesHaveNoFeed(playlist);
    BranchByTests(lines);
    if Read(lines).segments == [] {
      ResplitBranch(lines);
    } else {
      ReadIsOk(lines);
      ServedIsTidy(c, f, Read(lines));
      TidyLines(Served(c, f, Read(lines)));
      ServedTests(c, f, lines);
      BranchByTests(Served(c, f, Read(lines)));
    }
  }

  // ---------------------------------------------------------------------------
  // Which of the URIs a rewritten playlist names a player can fetch
  // ---------------------------------------------------------------------------

  /** The URI a player takes from a line, if any; a variant has its URI on the next line (section 4.3.4.2 of
      RFC 8216). */
  function NamedBy(raw: string): Option<string> {
    var line := TrimEnd(raw);
    if line == "" || StartsWith(line, STREAM_INF) then None else ChildOf(line)
  }

  ghost predicate AnyNames(lines: seq<string>, url: string) {
    exists raw | raw in lines :: NamedBy(raw) == Some(url)
  }

  /** A URL the player of a trusted playlist may use as it stands: one the host lets a browser fetch, or one
      the verifier admits. */
  predicate Fetchable(c: Context, url: string)
    requires c.secret.Some?
  {
    DirectUrl(c, url) == Some(url) || SignedUrl.IsSignedLiveHlsRequest(c.lib, c.secret.value, url)
  }

  ghost predicate AllFetchable(c: Context, lines: seq<string>)
    requires c.secret.Some?
  {
    forall url | AnyNames(lines, url) :: Fetchable(c, url)
  }

  /** The rewriter looks where the player does: on a URI line, or at the first mark of a tag. */
  predicate Found(raw: string) {
    NamedBy(raw).Some? && (StartsWith(TrimEnd(raw), "#") ==> Reaches(TrimEnd(raw)))
  }

  /** A tag whose URI a player looks for on the line itself. */
  predicate UriTag(line: string) { StartsWith(line, "#") && !StartsWith(line, STREAM_INF) }

  /** A direct URL that is written into a tag holds no quote or comma that would cut it. A proxied URL never
      does. */
  predicate Regular(c: Context, kind: Kind, raw: string) {
    UriTag(TrimEnd(raw)) ==> InsertsCleanly(c, kind, TrimEnd(raw))
  }

  /** The URI on a line that is not replaced by a resolved one. */
  function Unreplaced(c: Context, kind: Kind, raw: string): Option<string> {
    if Found(raw) then NamedBy(raw)
    else if UriTag(TrimEnd(raw)) then Left(c, kind, TrimEnd(raw)) else NamedBy(raw)
  }

  /** The URI on a line is found and resolves, or what stays there may be fetched as it stands. */
  predicate Sound(c: Context, kind: Kind, raw: string)
    requires c.secret.Some?
  {
    || (Found(raw) && ResolveUri(c, NamedBy(raw).value).Some?)
    || (Unreplaced(c, kind, raw).Some? ==> Fetchable(c, Unreplaced(c, kind, raw).value))
  }

  lemma VariantName()
    ensures '"' !in STREAM_INF && STREAM_INF[0] == '#'
  {
  }

  /** The URI a player takes from a rewritten line. */
  lemma RewrittenLineChild(c: Context, kind: Kind, raw: string)
    requires ContextOk(c) && Regular(c, kind, raw)
    ensures NamedBy(RewriteLine(c, kind, raw))
         == if Found(raw) then Some(RewriteUriLine(c, kind, NamedBy(raw).value)) else Unreplaced(c, kind, raw)
  {
    hide RewriteTag, RewriteUriLine, Child, ChildOf, Reaches, Left, InsertsCleanly;
    var line, after := TrimEnd(raw), RewriteLine(c, kind, raw);
    NotBlank(raw);
    VariantName();
    if line != "" {
      OneCharPrefix(line, '#');
      OneCharPrefix(after, '#');
      if StartsWith(line, "#") {
        RewrittenTagText(c, kind, line);
        RewrittenTagName(c, kind, line, STREAM_INF);
        RewrittenTagName(c, kind, line, "#");
        if !StartsWith(line, STREAM_INF) { RewrittenTagIs(c, kind, line); }
      } else {
        RewrittenUriFacts(c, kind, line);
        PlainChild(line);
        PlainChild(after);
      }
    }
  }

  lemma PlainChild(line: string)
    requires line != "" && line[0] != '#'
    ensures ChildOf(line) == Some(line) && !StartsWith(line, STREAM_INF)
  {
    assert TAG[0] == '#' && STREAM_INF[0] == '#';
  }

  lemma RewrittenUriFacts(c: Context, kind: Kind, line: string)
    requires ContextOk(c) && line != "" && line[0] != '#' && TrimEnd(line) == line
    ensures var after := RewriteUriLine(c, kind, line); after != "" && after[0] != '#' && TrimEnd(after) == after
  {
    hide Child;
    if Child(c, kind, line).Some? { ChildUrlFacts(c, kind, line); }
  }

  /** A found URI that resolves is replaced by a URL that is admitted and names exactly what it resolves to. */
  lemma FoundIsAdmitted(c: Context, kind: Kind, raw: string)
    requires Trusted(c) && Regular(c, kind, raw) && Found(raw) && ResolveUri(c, NamedBy(raw).value).Some?
    ensures NamedBy(RewriteLine(c, kind, raw)).Some?
    ensures Admitted(c, NamedBy(RewriteLine(c, kind, raw)).value, ResolveUri(c, NamedBy(raw).value).value)
  {
    hide NamedBy, RewriteLine, Admitted, ResolveUri, ChildUrl, Regular;
    RewrittenLineChild(c, kind, raw);
    ChildAdmitted(c, kind, NamedBy(raw).value);
  }

  lemma AdmittedIsFetchable(c: Context, child: string, absolute: string)
    requires c.secret.Some? && Admitted(c, child, absolute)
    ensures Fetchable(c, child)
  {
  }

  /** A player can fetch what a rewritten line names exactly if the line is sound. */
  lemma LineFetchableExactly(c: Context, kind: Kind, raw: string)
    requires Trusted(c) && Regular(c, kind, raw)
    ensures var after := NamedBy(RewriteLine(c, kind, raw));
            (after.Some? ==> Fetchable(c, after.value)) <==> Sound(c, kind, raw)
  {
    hide NamedBy, RewriteLine, Admitted, ResolveUri, ChildUrl, Regular, Fetchable, UriTag, Left;
    RewrittenLineChild(c, kind, raw);
    if Found(raw) && ResolveUri(c, NamedBy(raw).value).Some? {
      FoundIsAdmitted(c, kind, raw);
      AdmittedIsFetchable(c, NamedBy(RewriteLine(c, kind, raw)).value, ResolveUri(c, NamedBy(raw).value).value);
    }
  }

  lemma FoundProxiedIsRegular(c: Context, kind: Kind, raw: string)
    requires ContextOk(c) && Found(raw)
    requires ResolveUri(c, NamedBy(raw).value).Some? && DirectUrl(c, ResolveUri(c, NamedBy(raw).value).value).None?
    ensures Regular(c, kind, raw)
  {
    hide Blank, ChildOf, PlaceOf, RewriteTag, ChildUrl, ResolveUri, DirectUrl;
    var line := TrimEnd(raw);
    if UriTag(line) {
      ReachedExactly(c, kind, line);
      ChildUrlIsText(c, kind, NamedBy(raw).value);
    }
  }

  /** A playlist without direct URLs has no irregular line. */
  lemma ProxiedIsRegular(c: Context, kind: Kind, raw: string)
    requires ContextOk(c) && !c.directSegments
    ensures Regular(c, kind, raw)
  {
    hide InsertsCleanly;
    ProxiedInsertsCleanly(c, kind, TrimEnd(raw));
  }

  /** Where a proxied URL on a rewritten line of a trusted playlist leads, and whether it is marked VOD. */
  lemma RewrittenLineRoute(c: Context, kind: Kind, raw: string)
    requires Trusted(c) && Found(raw) && ResolveUri(c, NamedBy(raw).value).Some?
    requires DirectUrl(c, ResolveUri(c, NamedBy(raw).value).value).None?
    ensures NamedBy(RewriteLine(c, kind, raw)).Some?
    ensures var child := NamedBy(RewriteLine(c, kind, raw)).value;
      && SignedUrl.UriPath(child) == (if kind == Playlist then "/api/live/hls.m3u8" else "/api/live/hls-resource")
      && FormUrl.Get(FormUrl.Parse(SignedUrl.UriQuery(child)), "vod")
          == (if kind == VodResource then Some("1") else None)
  {
    hide NamedBy, RewriteLine, ResolveUri, ChildUrl, DirectUrl, SignedUrl.UriPath, SignedUrl.UriQuery, FormUrl.Get,
         FormUrl.Parse, Regular;
    FoundProxiedIsRegular(c, kind, raw);
    RewrittenLineChild(c, kind, raw);
    ChildSays(c, kind, ResolveUri(c, NamedBy(raw).value).value);
  }

  // ---------------------------------------------------------------------------
  // From lines to text
  // ---------------------------------------------------------------------------

  lemma NamesCons(raw: string, lines: seq<string>, url: string)
    ensures AnyNames([raw] + lines, url) <==> NamedBy(raw) == Some(url) || AnyNames(lines, url)
  {
    hide NamedBy;
    assert raw in [raw] + lines && forall l | l in lines :: l in [raw] + lines;
  }

  lemma NamesConcat(a: seq<string>, b: seq<string>, url: string)
    ensures AnyNames(a + b, url) <==> AnyNames(a, url) || AnyNames(b, url)
  {
    hide NamedBy;
    assert forall l | l in a || l in b :: l in a + b;
  }

  lemma CrNames(line: string)
    ensures NamedBy(WithoutCr(line)) == NamedBy(line)
  {
    assert TrimEnd(WithoutCr(line)) == TrimEnd(line);
  }

  /** Splitting joined lines again changes nothing about what is named. */
  lemma {:induction false} ResplitNames(lines: seq<string>, url: string)
    ensures AnyNames(Resplit(lines), url) <==> AnyNames(lines, url)
  {
    hide NamedBy, WithoutCr, AnyNames;
    if lines == [""] {
      NothingNamed(url);
    } else if |lines| > 1 {
      ResplitNames(lines[1..], url);
      CrNames(lines[0]);
      NamesCons(lines[0], lines[1..], url);
      NamesCons(WithoutCr(lines[0]), Resplit(lines[1..]), url);
      assert lines == [lines[0]] + lines[1..];
    }
  }

  lemma NothingNamed(url: string)
    ensures !AnyNames([""], url) && !AnyNames([], url)
  {
    assert TrimEnd("") == "";
  }

  /** A player of the joined text may fetch all it names exactly if that holds of the lines. */
  lemma TextFetchable(c: Context, lines: seq<string>)
    requires c.secret.Some? && forall line | line in lines :: '\n' !in line
    ensures AllFetchable(c, Lines(Unlines(lines))) <==> AllFetchable(c, lines)
  {
    hide AnyNames, Fetchable, Lines, Unlines, Resplit;
    LinesOfUnlines(lines);
    forall url ensures AnyNames(Resplit(lines), url) <==> AnyNames(lines, url) { ResplitNames(lines, url); }
  }

  function RewriteLines(c: Context, kind: Kind, lines: seq<string>): (r: seq<string>)
    ensures |r| == |lines| && forall i | 0 <= i < |lines| :: r[i] == RewriteLine(c, kind, lines[i])
  {
    seq(|lines|, i requires 0 <= i < |lines| => RewriteLine(c, kind, lines[i]))
  }

  ghost predicate AllRegular(c: Context, kind: Kind, lines: seq<string>) {
    forall raw | raw in lines :: Regular(c, kind, raw)
  }

  ghost predicate AllSound(c: Context, kind: Kind, lines: seq<string>)
    requires c.secret.Some?
  {
    forall raw | raw in lines :: Sound(c, kind, raw)
  }

  /** Lines that pass through unchanged: everything they name must be fetchable as it stands. */
  ghost predicate FetchableAsIs(c: Context, lines: seq<string>)
    requires c.secret.Some?
  {
    forall raw | raw in lines && NamedBy(raw).Some? :: Fetchable(c, NamedBy(raw).value)
  }

  lemma PassedFetchable(c: Context, lines: seq<string>)
    requires c.secret.Some?
    ensures AllFetchable(c, lines) <==> FetchableAsIs(c, lines)
  {
    hide NamedBy, Fetchable;
    forall raw | raw in lines && NamedBy(raw).Some? ensures AnyNames(lines, NamedBy(raw).value) {
    }
  }

  lemma LinesFetchable(c: Context, kind: Kind, lines: seq<string>)
    requires Trusted(c) && AllRegular(c, kind, lines)
    ensures AllFetchable(c, RewriteLines(c, kind, lines)) <==> AllSound(c, kind, lines)
  {
    hide NamedBy, Fetchable, RewriteLine, Sound, Regular, AllFetchable;
    var after := RewriteLines(c, kind, lines);
    PassedFetchable(c, after);
    forall i | 0 <= i < |lines|
      ensures lines[i] in lines && after[i] in after && after[i] == RewriteLine(c, kind, lines[i])
      ensures (NamedBy(after[i]).Some? ==> Fetchable(c, NamedBy(after[i]).value)) <==> Sound(c, kind, lines[i])
    {
      LineFetchableExactly(c, kind, lines[i]);
    }
  }

  // ---------------------------------------------------------------------------
  // The branches
  // ---------------------------------------------------------------------------

  lemma VodIsRewriteLines(c: Context, lines: seq<string>)
    ensures VodLines(c, lines) == RewriteLines(c, VodResource, lines)
  {
    hide RewriteLine;
  }

  /** Of a rewritten trusted VOD playlist, every URL is admitted or direct exactly if every upstream line is
      sound. */
  lemma VodFetchableExactly(c: Context, playlist: string)
    requires Trusted(c) && AllRegular(c, VodResource, Lines(playlist))
    ensures AllFetchable(c, Lines(Unlines(VodLines(c, Lines(playlist))))) <==> AllSound(c, VodResource, Lines(playlist))
  {
    hide AllFetchable, AllSound, AllRegular, Lines, Unlines, VodLines;
    var lines := Lines(playlist);
    LinesHaveNoFeed(playlist);
    VodLinesHaveNoFeed(c, lines);
    TextFetchable(c, VodLines(c, lines));
    VodIsRewriteLines(c, lines);
    LinesFetchable(c, VodResource, lines);
  }

  /** The upstream lines of a rolling playlist that are served: the header and the kept blocks. */
  function ServedFrom(r: Reading): seq<string> { r.header + Flatten(BlocksOf(Kept(r))) }

  lemma {:induction false} RewrittenBlocks(c: Context, segments: seq<Segment>, after: seq<Segment>)
    requires forall s | s in segments :: OkSegment(s)
    requires |after| == |segments|
            && forall i | 0 <= i < |segments| :: after[i] == RewriteSegment(c, Resource, segments[i])
    ensures Flatten(BlocksOf(after)) == RewriteLines(c, Resource, Flatten(BlocksOf(segments)))
  {
    if segments != [] {
      hide OkSegment, RewriteSegment, RewriteLine, Block;
      var n := |segments| - 1;
      assert segments == segments[..n] + [segments[n]] && after == after[..n] + [after[n]];
      assert segments[n] in segments;
      RewrittenBlocks(c, segments[..n], after[..n]);
      BlocksSnoc(segments[..n], segments[n]);
      BlocksSnoc(after[..n], after[n]);
      RewrittenBlock(c, segments[n]);
      RewriteLinesConcat(c, Resource, Flatten(BlocksOf(segments[..n])), Block(segments[n]));
    } else {
      assert after == [] && RewriteLines(c, Resource, []) == [];
    }
  }

  lemma RewriteLinesConcat(c: Context, kind: Kind, a: seq<string>, b: seq<string>)
    ensures RewriteLines(c, kind, a + b) == RewriteLines(c, kind, a) + RewriteLines(c, kind, b)
  {
    hide RewriteLine;
  }

  lemma RewrittenBlock(c: Context, s: Segment)
    requires OkSegment(s)
    ensures Block(RewriteSegment(c, Resource, s)) == RewriteLines(c, Resource, Block(s))
  {
    hide RewriteLine, RewriteTag, RewriteUriLine;
    RewrittenTagLines(c, s.tags);
    UriIsRewritten(c, Resource, s.uri);
    RewriteLinesConcat(c, Resource, s.tags, [s.uri]);
    assert RewriteLines(c, Resource, [s.uri]) == [RewriteLine(c, Resource, s.uri)];
  }

  lemma RewrittenTagLines(c: Context, tags: seq<string>)
    requires TagLines(tags)
    ensures RewriteTags(c, Resource, tags) == RewriteLines(c, Resource, tags)
  {
    hide RewriteLine, RewriteTag;
    forall i | 0 <= i < |tags| ensures RewriteTag(c, Resource, tags[i]) == RewriteLine(c, Resource, tags[i]) {
      assert tags[i] in tags;
      TagIsRewritten(c, Resource, tags[i]);
    }
  }

  lemma AddedNamesNothing(f: Floats, r: Reading, line: string)
    requires PrintsDigits(f) && Added(f, r, line)
    ensures NamedBy(line) == None
  {
    hide SequenceLine, StartLines, Window, NamedBy, SegmentTag;
    if line == EXTM3U {
      OpenIsHeaderTag();
      QuoteFreeNamesNothing(line);
    } else if line == SequenceLine(r.sequence + Dropped(|r.segments|)) {
      SequenceIsQuoteFree(r.sequence + Dropped(|r.segments|));
      QuoteFreeNamesNothing(line);
    } else {
      StartLinesAreHeaderTags(f, Window(f, r));
      assert TagLine(line);
      StartIsQuoteFree(f, Window(f, r), line);
      QuoteFreeNamesNothing(line);
    }
  }

  lemma QuoteFreeNamesNothing(line: string)
    requires '"' !in line && StartsWith(line, "#") && TrimEnd(line) == line
    ensures NamedBy(line) == None
  {
    hide ChildOf;
    QuoteFreeHasNoUri(line);
  }

  lemma SequenceIsQuoteFree(n: int)
    ensures '"' !in SequenceLine(n) && StartsWith(SequenceLine(n), "#") && TrimEnd(SequenceLine(n)) == SequenceLine(n)
  {
    ReadSequenceLine(NOTHING, n);
    NamesHaveNoQuote();
    var m := WrapI64(n);
    var digits := NatToString(if m < 0 then -m else m);
    assert '"' !in digits by { assert forall ch | ch in digits :: IsAsciiDigit(ch); }
    assert '"' !in IntToString(m) by { assert '"' !in "-"; }
    assert MEDIA_SEQUENCE[0] == '#' && SequenceLine(n)[0] == MEDIA_SEQUENCE[0];
  }

  lemma StartIsQuoteFree(f: Floats, window: F64, line: string)
    requires PrintsDigits(f) && line in StartLines(f, window)
    ensures '"' !in line
  {
    var digits := f.print3(StartOffset(window).value);
    assert line == START_TAG + digits + PRECISE_NO;
    assert forall ch | ch in digits :: IsAsciiDigit(ch) || ch == '.';
    assert '"' !in START_TAG && '"' !in PRECISE_NO;
    ConcatAvoids(START_TAG, digits, PRECISE_NO, '"');
  }

  lemma AddedTagsNameNothing(f: Floats, r: Reading, url: string)
    requires PrintsDigits(f)
    ensures !AnyNames([EXTM3U], url) && !AnyNames([SequenceLine(r.sequence + Dropped(|r.segments|))], url)
    ensures !AnyNames(StartLines(f, Window(f, r)), url)
  {
    hide SequenceLine, StartLines, Window, NamedBy;
    forall line | Added(f, r, line) ensures NamedBy(line) == None { AddedNamesNothing(f, r, line); }
    assert Added(f, r, EXTM3U) && Added(f, r, SequenceLine(r.sequence + Dropped(|r.segments|)));
  }

  /** What is served names what the rewritten header and kept blocks name. */
  lemma ServedNames(c: Context, f: Floats, r: Reading, url: string)
    requires PrintsDigits(f) && OkReading(r)
    ensures AnyNames(Served(c, f, r), url) <==> AnyNames(RewriteLines(c, Resource, ServedFrom(r)), url)
  {
    hide Served, SequenceLine, StartLines, Window, AnyNames, Flatten, BlocksOf, Kept, OkSegment, RewriteLine, TagLine,
         SegmentTag;
    var header, blocks := RewriteTags(c, Resource, r.header), Flatten(BlocksOf(ServedSegments(c, r)));
    var start, number := StartLines(f, Window(f, r)), SequenceLine(r.sequence + Dropped(|r.segments|));
    ServedParts(c, f, r);
    AddedTagsNameNothing(f, r, url);
    NamesConcat([EXTM3U], header, url);
    NamesConcat(Opened(header), start, url);
    NamesConcat(Opened(header) + start, [number], url);
    NamesConcat(Opened(header) + start + [number], blocks, url);
    RewrittenTagLines(c, r.header);
    KeptAreOk(r);
    RewrittenBlocks(c, Kept(r), ServedSegments(c, r));
    RewriteLinesConcat(c, Resource, r.header, Flatten(BlocksOf(Kept(r))));
    NamesConcat(header, blocks, url);
  }

  lemma KeptAreOk(r: Reading)
    requires OkReading(r)
    ensures forall s | s in Kept(r) :: OkSegment(s)
  {
    hide OkSegment;
  }

  /** Of what is returned for a trusted rolling playlist, every URL is admitted or direct exactly if every
      upstream line that is served is sound; while no segment has arrived, exactly if everything named
      upstream is fetchable as it stands. */
  lemma RollingFetchableExactly(c: Context, f: Floats, playlist: string)
    requires Trusted(c) && PrintsDigits(f) && AllRegular(c, Resource, ServedFrom(ReadText(playlist)))
    ensures AllFetchable(c, Lines(RollingText(c, f, Lines(playlist))))
       <==> if ReadText(playlist).segments == [] then FetchableAsIs(c, Lines(playlist))
            else AllSound(c, Resource, ServedFrom(ReadText(playlist)))
  {
    hide AllSound, AllRegular, Lines, Unlines, Served, ServedFrom, AnyNames, OkReading, Fetchable, Read, NamedBy;
    var lines := Lines(playlist);
    var r := Read(lines);
    LinesHaveNoFeed(playlist);
    if r.segments == [] {
      TextFetchable(c, lines);
      PassedFetchable(c, lines);
    } else {
      ReadIsOk(lines);
      ServedIsTidy(c, f, r);
      TidyLines(Served(c, f, r));
      forall url ensures AnyNames(Served(c, f, r), url) <==> AnyNames(RewriteLines(c, Resource, ServedFrom(r)), url) {
        ServedNames(c, f, r, url);
      }
      LinesFetchable(c, Resource, ServedFrom(r));
    }
  }
}
