/** A served rolling playlist sorted again the way the rewriter sorts: nothing gets lost, and the header, the
    last blocks and the new number are found where they were put. */
module HlsWindow {
  import opened Text
  import opened Decimal
  import opened HlsLines
  import opened HlsUri
  import opened HlsMedia

  // ---------------------------------------------------------------------------
  // Lines as the reader files them
  // ---------------------------------------------------------------------------

  predicate TagLine(line: string) {
    && StartsWith(line, "#") && TrimEnd(line) == line && '\n' !in line
    && !StartsWith(line, MEDIA_SEQUENCE) && !StartsWith(line, ENDLIST)
  }

  predicate TagLines(lines: seq<string>) { forall line | line in lines :: TagLine(line) }

  predicate HeaderTags(lines: seq<string>) { forall line | line in lines :: TagLine(line) && !SegmentTag(line) }

  predicate UriLine(line: string) {
    line != "" && TrimEnd(line) == line && line[0] != '#' && '\n' !in line
  }

  function Select(lines: seq<string>, keep: string -> bool): seq<string> {
    if lines == [] then []
    else Select(lines[..|lines| - 1], keep) + if keep(lines[|lines| - 1]) then [lines[|lines| - 1]] else []
  }

  function SegmentTags(tags: seq<string>): seq<string> { Select(tags, SegmentTag) }

  function PlaylistTags(tags: seq<string>): seq<string> { Select(tags, tag => !SegmentTag(tag)) }

  lemma SelectSnoc(lines: seq<string>, line: string, keep: string -> bool)
    ensures Select(lines + [line], keep) == if keep(line) then Select(lines, keep) + [line] else Select(lines, keep)
  {
    assert (lines + [line])[..|lines|] == lines;
  }

  lemma {:induction false} SelectAll(lines: seq<string>, keep: string -> bool)
    ensures (forall line | line in lines :: keep(line)) ==> Select(lines, keep) == lines
    ensures (forall line | line in lines :: !keep(line)) ==> Select(lines, keep) == []
  {
    if lines != [] {
      var front, last := lines[..|lines| - 1], lines[|lines| - 1];
      assert lines == front + [last];
      SelectAll(front, keep);
    }
  }

  predicate OkSegment(s: Segment) { TagLines(s.tags) && UriLine(s.uri) }

  predicate OkReading(r: Reading) {
    && HeaderTags(r.header) && TagLines(r.pending) && I64_MIN <= r.sequence <= I64_MAX
    && forall s | s in r.segments :: OkSegment(s)
  }

  lemma NotBlank(line: string)
    ensures TrimEnd(TrimEnd(line)) == TrimEnd(line)
    ensures Trim(TrimEnd(line)) == "" <==> TrimEnd(line) == ""
  {
    var end := TrimEnd(line);
    TrimEndShape(line);
    if end != "" {
      EndIsFixed(end);
      TrimStartShape(end);
    }
  }

  lemma OneCharPrefix(line: string, ch: char)
    ensures [ch] <= line <==> line != "" && line[0] == ch
  {
  }

  lemma ReadLineIsOk(r: Reading, raw: string)
    requires OkReading(r) && '\n' !in raw
    ensures OkReading(ReadLine(r, raw))
  {
    var line := TrimEnd(raw);
    NotBlank(raw);
    TrimEndShape(raw);
    assert forall ch | ch in line :: ch in raw;
    OneCharPrefix(line, '#');
  }

  lemma {:induction false} ReadIsOk(lines: seq<string>)
    requires forall line | line in lines :: '\n' !in line
    ensures OkReading(Read(lines))
  {
    if lines != [] {
      ReadIsOk(lines[..|lines| - 1]);
      ReadLineIsOk(Read(lines[..|lines| - 1]), lines[|lines| - 1]);
    }
  }

  // ---------------------------------------------------------------------------
  // Reading in pieces
  // ---------------------------------------------------------------------------

  lemma {:induction false} ReadConcat(r: Reading, a: seq<string>, b: seq<string>)
    ensures ReadFrom(r, a + b) == ReadFrom(ReadFrom(r, a), b)
  {
    if b == [] {
      assert a + b == a;
    } else {
      assert (a + b)[..|a + b| - 1] == a + b[..|b| - 1];
      ReadConcat(r, a, b[..|b| - 1]);
    }
  }

  lemma ReadOne(r: Reading, line: string)
    ensures ReadFrom(r, [line]) == ReadLine(r, line)
  {
    assert [line][..0] == [];
  }

  lemma ReadTagLine(r: Reading, line: string)
    requires TagLine(line)
    ensures ReadLine(r, line) == if r.segments == [] && !SegmentTag(line) then r.(header := r.header + [line])
                                 else r.(pending := r.pending + [line])
  {
    NotBlank(line);
  }

  lemma ReadUriLine(r: Reading, line: string)
    requires UriLine(line)
    ensures ReadLine(r, line) == r.(segments := r.segments + [Segment(r.pending, line)], pending := [])
  {
    NotBlank(line);
    OneCharPrefix(line, '#');
    NotATag(line);
  }

  lemma NotATag(line: string)
    requires line != "" && line[0] != '#'
    ensures !StartsWith(line, MEDIA_SEQUENCE) && !StartsWith(line, ENDLIST)
  {
    assert MEDIA_SEQUENCE[0] == '#' && ENDLIST[0] == '#';
  }

  /** What reading `tags` adds to `r`: ahead of the first segment they are sorted into the header and
      the segment's own. */
  function WithTags(r: Reading, tags: seq<string>): Reading {
    if r.segments == [] then r.(header := r.header + PlaylistTags(tags), pending := r.pending + SegmentTags(tags))
    else r.(pending := r.pending + tags)
  }

  lemma Regroup(a: seq<string>, b: seq<string>, x: string)
    ensures a + b + [x] == a + (b + [x])
  {
  }

  lemma SortedSnoc(front: seq<string>, last: string)
    ensures SegmentTag(last) ==>
              SegmentTags(front + [last]) == SegmentTags(front) + [last]
                  && PlaylistTags(front + [last]) == PlaylistTags(front)
    ensures !SegmentTag(last) ==>
              SegmentTags(front + [last]) == SegmentTags(front)
                  && PlaylistTags(front + [last]) == PlaylistTags(front) + [last]
  {
    SelectSnoc(front, last, SegmentTag);
    SelectSnoc(front, last, tag => !SegmentTag(tag));
  }

  lemma WithTagsSnoc(r: Reading, front: seq<string>, last: string)
    requires TagLine(last)
    ensures WithTags(r, front + [last]) == ReadLine(WithTags(r, front), last)
  {
    ReadTagLine(WithTags(r, front), last);
    SortedSnoc(front, last);
    Regroup(r.header, PlaylistTags(front), last);
    Regroup(r.pending, SegmentTags(front), last);
    Regroup(r.pending, front, last);
  }

  lemma {:induction false} ReadTags(r: Reading, tags: seq<string>)
    requires TagLines(tags)
    ensures ReadFrom(r, tags) == WithTags(r, tags)
  {
    if tags == [] {
      assert r.header + [] == r.header && r.pending + [] == r.pending;
    } else {
      var front, last := tags[..|tags| - 1], tags[|tags| - 1];
      assert last in tags && forall t | t in front :: t in tags;
      assert tags == front + [last];
      ReadTags(r, front);
      WithTagsSnoc(r, front, last);
    }
  }

  lemma ReadHeader(r: Reading, tags: seq<string>)
    requires HeaderTags(tags) && r.segments == []
    ensures ReadFrom(r, tags) == r.(header := r.header + tags)
  {
    SelectAll(tags, SegmentTag);
    SelectAll(tags, tag => !SegmentTag(tag));
    ReadTags(r, tags);
    assert r.pending + [] == r.pending;
  }

  lemma ReadBlock(r: Reading, s: Segment)
    requires OkSegment(s) && r.pending == []
    ensures ReadFrom(r, Block(s))
         == if r.segments == [] then
              r.(header := r.header + PlaylistTags(s.tags), segments := [Segment(SegmentTags(s.tags), s.uri)])
            else r.(segments := r.segments + [s])
  {
    ReadConcat(r, s.tags, [s.uri]);
    ReadTags(r, s.tags);
    ReadOne(ReadFrom(r, s.tags), s.uri);
    ReadUriLine(ReadFrom(r, s.tags), s.uri);
    assert [] + SegmentTags(s.tags) == SegmentTags(s.tags) && [] + s.tags == s.tags;
    assert r.segments == []
        ==> r.segments + [Segment(SegmentTags(s.tags), s.uri)] == [Segment(SegmentTags(s.tags), s.uri)];
  }

  /** Segments as they are read when nothing stands before them. */
  function Leading(segments: seq<Segment>): seq<Segment> {
    if segments == [] then [] else [Segment(SegmentTags(segments[0].tags), segments[0].uri)] + segments[1..]
  }

  function BlocksOf(segments: seq<Segment>): (r: seq<seq<string>>)
    ensures |r| == |segments| && forall i | 0 <= i < |segments| :: r[i] == Block(segments[i])
  {
    seq(|segments|, i requires 0 <= i < |segments| => Block(segments[i]))
  }

  lemma BlocksSnoc(segments: seq<Segment>, last: Segment)
    ensures Flatten(BlocksOf(segments + [last])) == Flatten(BlocksOf(segments)) + Block(last)
  {
    var blocks := BlocksOf(segments + [last]);
    assert blocks[..|segments|] == BlocksOf(segments);
  }

  lemma LeadingSnoc(segments: seq<Segment>, last: Segment)
    ensures Leading(segments + [last])
         == if segments == [] then [Segment(SegmentTags(last.tags), last.uri)] else Leading(segments) + [last]
  {
    if segments == [] {
      assert [last][1..] == [];
    } else {
      assert (segments + [last])[1..] == segments[1..] + [last];
    }
  }

  lemma {:induction false} ReadBlocks(r: Reading, segments: seq<Segment>)
    requires r.segments == [] && r.pending == [] && segments != [] && forall s | s in segments :: OkSegment(s)
    ensures ReadFrom(r, Flatten(BlocksOf(segments)))
         == r.(header := r.header + PlaylistTags(segments[0].tags), segments := Leading(segments))
  {
    var front, last := segments[..|segments| - 1], segments[|segments| - 1];
    assert segments == front + [last];
    assert OkSegment(last) && forall s | s in front :: s in segments;
    BlocksSnoc(front, last);
    LeadingSnoc(front, last);
    ReadConcat(r, Flatten(BlocksOf(front)), Block(last));
    if front == [] {
      ReadBlock(r, last);
    } else {
      ReadBlocks(r, front);
      ReadBlock(ReadFrom(r, Flatten(BlocksOf(front))), last);
    }
  }

  // ---------------------------------------------------------------------------
  // Rewriting keeps the class of a line
  // ---------------------------------------------------------------------------

  lemma NamesHaveNoQuote()
    ensures '"' !in MEDIA_SEQUENCE && '"' !in ENDLIST && '"' !in "#" && '"' !in EXTINF && '"' !in "#EXT-X-KEY"
    ensures '"' !in "#EXT-X-MAP" && '"' !in "#EXT-X-PROGRAM-DATE-TIME" && '"' !in "#EXT-X-DISCONTINUITY"
  {
  }

  lemma RewrittenSegmentTag(c: Context, kind: Kind, line: string)
    ensures SegmentTag(RewriteTag(c, kind, line)) <==> SegmentTag(line)
  {
    NamesHaveNoQuote();
    RewrittenTagName(c, kind, line, EXTINF);
    RewrittenTagName(c, kind, line, "#EXT-X-KEY");
    RewrittenTagName(c, kind, line, "#EXT-X-MAP");
    RewrittenTagName(c, kind, line, "#EXT-X-PROGRAM-DATE-TIME");
    RewrittenTagName(c, kind, line, "#EXT-X-DISCONTINUITY");
  }

  lemma RewrittenTagLine(c: Context, kind: Kind, line: string)
    requires ContextOk(c) && TagLine(line)
    ensures TagLine(RewriteTag(c, kind, line))
  {
    NamesHaveNoQuote();
    RewrittenTagName(c, kind, line, MEDIA_SEQUENCE);
    RewrittenTagName(c, kind, line, ENDLIST);
    RewrittenTagName(c, kind, line, "#");
    RewrittenTagText(c, kind, line);
    RewrittenTagStaysOnLine(c, kind, line);
  }

  lemma RewrittenTags(c: Context, kind: Kind, tags: seq<string>)
    requires ContextOk(c) && TagLines(tags)
    ensures TagLines(RewriteTags(c, kind, tags))
    ensures HeaderTags(tags) ==> HeaderTags(RewriteTags(c, kind, tags))
  {
    forall tag | tag in RewriteTags(c, kind, tags)
      ensures TagLine(tag) && (HeaderTags(tags) ==> !SegmentTag(tag))
    {
      var i :| 0 <= i < |tags| && tag == RewriteTag(c, kind, tags[i]);
      assert tags[i] in tags;
      RewrittenTagLine(c, kind, tags[i]);
      RewrittenSegmentTag(c, kind, tags[i]);
    }
  }

  lemma RewrittenSegment(c: Context, kind: Kind, s: Segment)
    requires ContextOk(c) && OkSegment(s)
    ensures OkSegment(RewriteSegment(c, kind, s))
  {
    RewrittenTags(c, kind, s.tags);
    RewrittenUriLine(c, kind, s.uri);
  }

  // ---------------------------------------------------------------------------
  // The lines the rewriter adds
  // ---------------------------------------------------------------------------

  lemma DigitsAreClean(digits: string)
    requires digits != "" && AllDigits(digits)
    ensures Trimmed(digits) && '\n' !in digits
  {
    assert digits[0] in digits && digits[|digits| - 1] in digits;
  }

  lemma PrintedIsClean(n: int)
    ensures IntToString(n) != "" && Trimmed(IntToString(n)) && '\n' !in IntToString(n)
  {
    var digits := NatToString(if n < 0 then -n else n);
    DigitsAreClean(digits);
    assert n < 0 ==> IntToString(n)[0] == '-' && IntToString(n)[|IntToString(n)| - 1] == digits[|digits| - 1];
  }

  lemma EndOfConcat(a: string, b: string)
    requires b != "" && TrimEnd(b) == b
    ensures TrimEnd(a + b) == a + b && a + b != ""
  {
    EndIsFixed(b);
    EndIsFixed(a + b);
  }

  lemma MarkIsOneLine()
    ensures '\n' !in MEDIA_SEQUENCE
  {
  }

  lemma ReadSequenceLine(r: Reading, n: int)
    ensures var line := SequenceLine(n);
            ReadLine(r, line) == r.(sequence := WrapI64(n)) && '\n' !in line && TrimEnd(line) == line && line != ""
  {
    var m := WrapI64(n);
    var line := MEDIA_SEQUENCE + IntToString(m);
    PrintedIsClean(m);
    MarkIsOneLine();
    TrimmedIsFixed(IntToString(m));
    EndOfConcat(MEDIA_SEQUENCE, IntToString(m));
    NotBlank(line);
    ParsePrinted(m, I64_MIN, I64_MAX);
    assert line[|MEDIA_SEQUENCE|..] == IntToString(m);
  }

  /** A text that differs from a name at some place does not start with it. */
  lemma NotPrefix(name: string, line: string, i: nat)
    requires i < |name| && (i < |line| ==> line[i] != name[i])
    ensures !(name <= line)
  {
  }

  lemma OpenIsHeaderTag()
    ensures TagLine(EXTM3U) && !SegmentTag(EXTM3U)
  {
    assert EXTM3U[6] == 'U' && |EXTM3U| == 7 && EXTM3U[4] == 'M';
    assert EXTINF[4] == 'I';
    NotPrefix(MEDIA_SEQUENCE, EXTM3U, 7);
    NotPrefix(ENDLIST, EXTM3U, 7);
    NotPrefix(EXTINF, EXTM3U, 4);
    NotPrefix("#EXT-X-KEY", EXTM3U, 7);
    NotPrefix("#EXT-X-MAP", EXTM3U, 7);
    NotPrefix("#EXT-X-PROGRAM-DATE-TIME", EXTM3U, 7);
    NotPrefix("#EXT-X-DISCONTINUITY", EXTM3U, 7);
    EndIsFixed(EXTM3U);
  }

  lemma StartNames(line: string)
    requires START_TAG <= line
    ensures StartsWith(line, "#") && !StartsWith(line, MEDIA_SEQUENCE) && !StartsWith(line, ENDLIST)
            && !SegmentTag(line)
  {
    assert |START_TAG| > 8 && START_TAG[0] == '#' && START_TAG[4] == '-' && START_TAG[7] == 'S';
    assert line[0] == START_TAG[0] && line[4] == START_TAG[4] && line[7] == START_TAG[7];
    NotPrefix(MEDIA_SEQUENCE, line, 7);
    NotPrefix(ENDLIST, line, 7);
    NotPrefix(EXTINF, line, 4);
    NotPrefix("#EXT-X-KEY", line, 7);
    NotPrefix("#EXT-X-MAP", line, 7);
    NotPrefix("#EXT-X-PROGRAM-DATE-TIME", line, 7);
    NotPrefix("#EXT-X-DISCONTINUITY", line, 7);
  }

  lemma StartEnds()
    ensures PRECISE_NO != "" && TrimEnd(PRECISE_NO) == PRECISE_NO && '\n' !in PRECISE_NO && '\n' !in START_TAG
  {
    assert |PRECISE_NO| == 11 && PRECISE_NO[10] == 'O';
    EndIsFixed(PRECISE_NO);
  }

  lemma StartLinesAreHeaderTags(f: Floats, window: F64)
    requires PrintsDigits(f)
    ensures HeaderTags(StartLines(f, window))
  {
    if StartOffset(window).Some? {
      var digits := f.print3(StartOffset(window).value);
      var line := START_TAG + digits + PRECISE_NO;
      StartEnds();
      StartNames(line);
      EndOfConcat(START_TAG + digits, PRECISE_NO);
      assert forall ch | ch in digits :: IsAsciiDigit(ch) || ch == '.';
      ConcatAvoids(START_TAG, digits, PRECISE_NO, '\n');
    }
  }

  // ---------------------------------------------------------------------------
  // What is read from the served playlist
  // ---------------------------------------------------------------------------

  function ServedSegments(c: Context, r: Reading): (segments: seq<Segment>)
    ensures |segments| == |Kept(r)|
            && forall i | 0 <= i < |segments| :: segments[i] == RewriteSegment(c, Resource, Kept(r)[i])
  {
    seq(|Kept(r)|, i requires 0 <= i < |Kept(r)| => RewriteSegment(c, Resource, Kept(r)[i]))
  }

  /** Seconds of media that are served. */
  function Window(f: Floats, r: Reading): F64 { Sum(Durations(f, Kept(r))) }

  function ServedHeader(c: Context, f: Floats, r: Reading): seq<string> {
    Opened(RewriteTags(c, Resource, r.header)) + StartLines(f, Window(f, r))
  }

  lemma KeptParts(c: Context, f: Floats, r: Reading, d: nat)
    requires d == Dropped(|r.segments|)
    ensures Durations(f, r.segments)[d..] == Durations(f, Kept(r))
    ensures Blocks(c, r.segments)[d..] == BlocksOf(ServedSegments(c, r))
  {
  }

  lemma ServedParts(c: Context, f: Floats, r: Reading)
    ensures Served(c, f, r) == ServedHeader(c, f, r) + [SequenceLine(r.sequence + Dropped(|r.segments|))]
                               + Flatten(BlocksOf(ServedSegments(c, r)))
  {
    hide Opened, StartLines, SequenceLine, Flatten, Sum, Kept, ServedSegments, BlocksOf;
    KeptParts(c, f, r, Dropped(|r.segments|));
  }

  /** How `Served(c, f, r)` is sorted. */
  function ServedReading(c: Context, f: Floats, r: Reading): Reading
    requires r.segments != []
  {
    Reading(ServedHeader(c, f, r) + PlaylistTags(ServedSegments(c, r)[0].tags), Leading(ServedSegments(c, r)), [],
            WrapI64(r.sequence + Dropped(|r.segments|)))
  }

  lemma ServedHeaderIsHeader(c: Context, f: Floats, r: Reading)
    requires ContextOk(c) && PrintsDigits(f) && OkReading(r)
    ensures HeaderTags(ServedHeader(c, f, r))
  {
    RewrittenTags(c, Resource, r.header);
    OpenIsHeaderTag();
    StartLinesAreHeaderTags(f, Window(f, r));
  }

  lemma ServedSegmentsAreOk(c: Context, r: Reading)
    requires ContextOk(c) && OkReading(r)
    ensures forall s | s in ServedSegments(c, r) :: OkSegment(s)
  {
    forall s | s in ServedSegments(c, r) ensures OkSegment(s) {
      var i :| 0 <= i < |Kept(r)| && s == RewriteSegment(c, Resource, Kept(r)[i]);
      assert Kept(r)[i] in r.segments;
      RewrittenSegment(c, Resource, Kept(r)[i]);
    }
  }

  lemma ReadParts(header: seq<string>, n: int, segments: seq<Segment>)
    requires HeaderTags(header) && segments != [] && forall s | s in segments :: OkSegment(s)
    ensures Read(header + [SequenceLine(n)] + Flatten(BlocksOf(segments)))
         == Reading(header + PlaylistTags(segments[0].tags), Leading(segments), [], WrapI64(n))
  {
    hide SequenceLine, Flatten, BlocksOf, ReadFrom, ReadLine, HeaderTags, Leading, Select, OkSegment;
    var line := SequenceLine(n);
    ReadConcat(NOTHING, header + [line], Flatten(BlocksOf(segments)));
    ReadConcat(NOTHING, header, [line]);
    ReadHeader(NOTHING, header);
    assert [] + header == header;
    ReadOne(ReadFrom(NOTHING, header), line);
    ReadSequenceLine(ReadFrom(NOTHING, header), n);
    ReadBlocks(ReadFrom(NOTHING, header + [line]), segments);
  }

  lemma ReadServedLines(c: Context, f: Floats, r: Reading)
    requires ContextOk(c) && PrintsDigits(f) && OkReading(r) && r.segments != []
    ensures Read(Served(c, f, r)) == ServedReading(c, f, r)
  {
    hide Served, ServedHeader, SequenceLine, Flatten, BlocksOf, Read, HeaderTags, Leading, Select, OkReading, ContextOk,
         PrintsDigits, OkSegment, RewriteSegment, WrapI64;
    ServedParts(c, f, r);
    ServedHeaderIsHeader(c, f, r);
    ServedSegmentsAreOk(c, r);
    ReadParts(ServedHeader(c, f, r), r.sequence + Dropped(|r.segments|), ServedSegments(c, r));
  }

  // ---------------------------------------------------------------------------
  // From lines to text and back
  // ---------------------------------------------------------------------------

  predicate Tidy(lines: seq<string>) {
    forall line | line in lines :: line != "" && TrimEnd(line) == line && '\n' !in line
  }

  lemma TidyLines(lines: seq<string>)
    requires Tidy(lines)
    ensures Lines(Unlines(lines)) == lines
  {
    forall line | line in lines ensures CleanLine(line) {
      EndIsFixed(line);
    }
    LinesOfUnlines(lines);
    ResplitClean(lines);
    if lines != [] { assert lines[|lines| - 1] in lines; }
  }

  lemma TidyTags(tags: seq<string>)
    requires TagLines(tags)
    ensures Tidy(tags)
  {
    forall tag | tag in tags ensures tag != "" { OneCharPrefix(tag, '#'); }
  }

  lemma {:induction false} TidyBlocks(segments: seq<Segment>)
    requires forall s | s in segments :: OkSegment(s)
    ensures Tidy(Flatten(BlocksOf(segments)))
  {
    if segments != [] {
      var front, last := segments[..|segments| - 1], segments[|segments| - 1];
      assert segments == front + [last];
      assert OkSegment(last) && forall s | s in front :: s in segments;
      TidyBlocks(front);
      BlocksSnoc(front, last);
      TidyTags(last.tags);
    }
  }

  lemma TidyConcat(a: seq<string>, line: string, b: seq<string>)
    requires Tidy(a) && Tidy(b) && line != "" && TrimEnd(line) == line && '\n' !in line
    ensures Tidy(a + [line] + b)
  {
  }

  lemma ServedIsTidy(c: Context, f: Floats, r: Reading)
    requires ContextOk(c) && PrintsDigits(f) && OkReading(r)
    ensures Tidy(Served(c, f, r))
  {
    hide Served, ServedHeader, SequenceLine, Flatten, ServedSegments, BlocksOf, OkReading;
    var header, n, segments := ServedHeader(c, f, r), r.sequence + Dropped(|r.segments|), ServedSegments(c, r);
    ServedParts(c, f, r);
    ServedHeaderIsHeader(c, f, r);
    ServedSegmentsAreOk(c, r);
    TidyTags(header);
    TidyBlocks(segments);
    ReadSequenceLine(NOTHING, n);
    TidyConcat(header, SequenceLine(n), Flatten(BlocksOf(segments)));
  }

  /** How the rewriter reads a playlist text. */
  function ReadText(playlist: string): Reading { Read(Lines(playlist)) }

  /** The text the rolling branch serves for a playlist with segments. */
  function ServedText(c: Context, f: Floats, playlist: string): string { Unlines(Served(c, f, ReadText(playlist))) }

  /** Sorting the served text gives back the parts it was assembled from. */
  lemma ReadServedText(c: Context, f: Floats, playlist: string)
    requires ContextOk(c) && PrintsDigits(f) && ReadText(playlist).segments != []
    ensures OkReading(ReadText(playlist))
    ensures ReadText(ServedText(c, f, playlist)) == ServedReading(c, f, ReadText(playlist))
  {
    LinesHaveNoFeed(playlist);
    ReadIsOk(Lines(playlist));
    ServedIsTidy(c, f, Read(Lines(playlist)));
    TidyLines(Served(c, f, Read(Lines(playlist))));
    ReadServedLines(c, f, Read(Lines(playlist)));
  }

  // ---------------------------------------------------------------------------
  // The rolling window
  // ---------------------------------------------------------------------------

  /** The start hint lies between 2 and 18 seconds behind the edge, and at most half the served
      window behind it unless the durations add up to no number; a window under four seconds, and
      only that, has none. */
  lemma StartOffsetFits(window: F64)
    ensures StartOffset(window).Some? ==> 2.0 <= StartOffset(window).value <= 18.0
    ensures StartOffset(window).Some? ==> (Le(Finite(StartOffset(window).value), Half(window)) <==> window != NaN)
    ensures StartOffset(window).None? <==> Le(window, Finite(4.0)) && window != Finite(4.0)
  {
  }
}
