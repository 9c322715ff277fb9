/** What a player reads from a media playlist by section 4.3 of RFC 8216, which is not how the rewriter of
    src/live.rs sorts its lines, and what it reads from the rewritten playlist instead. */
module HlsPlayer {
  import opened Text
  import opened Decimal
  import opened HlsLines
  import opened HlsUri
  import opened HlsMedia
  import opened HlsWindow
  import opened HlsVod
  import HlsTrust

  // ---------------------------------------------------------------------------
  // The player
  // ---------------------------------------------------------------------------

  /** Segments with the tags that apply to them, segment tags waiting for the next URI, all other tags and
      comments, and the media sequence number of the first segment unless its text is no number. */
  datatype Playing = Playing(segments: seq<Segment>, pending: seq<string>, others: seq<string>, sequence: Option<nat>)

  const SILENT := Playing([], [], [], Some(0))

  const INFO := "#EXTINF:"
  const SEQUENCE := "#EXT-X-MEDIA-SEQUENCE:"
  const KEY := "#EXT-X-KEY:"
  const MAP := "#EXT-X-MAP:"
  const BYTERANGE := "#EXT-X-BYTERANGE:"
  const PROGRAM_DATE := "#EXT-X-PROGRAM-DATE-TIME:"
  const DATERANGE := "#EXT-X-DATERANGE:"
  const DISCONTINUITY := "#EXT-X-DISCONTINUITY"

  /** The media segment tags of section 4.3.2. */
  predicate MediaSegmentTag(line: string) {
    || StartsWith(line, INFO) || StartsWith(line, BYTERANGE) || line == DISCONTINUITY || StartsWith(line, KEY)
    || StartsWith(line, MAP) || StartsWith(line, PROGRAM_DATE) || StartsWith(line, DATERANGE)
  }

  const U64_MAX := 0xffff_ffff_ffff_ffff

  /** A decimal-integer of section 4.2. */
  function DecimalInteger(s: string): Option<nat> {
    if s == "" || |s| > 20 || !AllDigits(s) || DigitsValue(s) > U64_MAX then None else Some(DigitsValue(s))
  }

  function NumberIn(line: string): Option<nat>
    requires StartsWith(line, SEQUENCE)
  {
    DecimalInteger(Trim(line[|SEQUENCE|..]))
  }

  function PlayLine(p: Playing, raw: string): Playing {
    var line := TrimEnd(raw);
    if line == "" then p
    else if StartsWith(line, SEQUENCE) then p.(sequence := NumberIn(line))
    else if MediaSegmentTag(line) then p.(pending := p.pending + [line])
    else if StartsWith(line, "#") then p.(others := p.others + [line])
    else p.(segments := p.segments + [Segment(p.pending, line)], pending := [])
  }

  function PlayFrom(p: Playing, lines: seq<string>): Playing {
    if lines == [] then p else PlayLine(PlayFrom(p, lines[..|lines| - 1]), lines[|lines| - 1])
  }

  function Play(lines: seq<string>): Playing { PlayFrom(SILENT, lines) }

  function PlayText(playlist: string): Playing { Play(Lines(playlist)) }

  /** The media sequence number of a segment. */
  function NumberOf(p: Playing, i: nat): Option<nat> {
    if p.sequence.Some? then Some(p.sequence.value + i) else None
  }

  lemma PlaySnoc(p: Playing, lines: seq<string>, line: string)
    ensures PlayFrom(p, lines + [line]) == PlayLine(PlayFrom(p, lines), line)
  {
    assert (lines + [line])[..|lines|] == lines;
  }

  // ---------------------------------------------------------------------------
  // Player and rewriter read the same lines
  // ---------------------------------------------------------------------------

  /** The tags among these that apply to a segment. */
  function Own(tags: seq<string>): seq<string> { Select(tags, MediaSegmentTag) }

  /** The tags that the rewriter does not know to belong to a segment. */
  function Stray(tags: seq<string>): seq<string> { PlaylistTags(tags) }

  /** What the player holds for a segment before which the rewriter filed some tags with the playlist. */
  predicate Split(tags: seq<string>, header: seq<string>, block: seq<string>) {
    SegmentTags(tags) == Own(block) && Stray(tags) == Own(header)
  }

  predicate AllSegmentTags(tags: seq<string>) { forall tag | tag in tags :: SegmentTag(tag) }

  predicate SameNumber(player: Option<nat>, rewriter: int) {
    player.Some? ==> rewriter == if player.value <= I64_MAX then player.value else 0
  }

  predicate SameSegment(a: Segment, b: Segment) { a.uri == b.uri && a.tags == Own(b.tags) }

  /** How the player's reading of some lines relates to the rewriter's. */
  predicate Joint(p: Playing, r: Reading) {
    && |p.segments| == |r.segments| && SameNumber(p.sequence, r.sequence)
    && (r.segments == [] ==> Split(p.pending, r.header, r.pending) && AllSegmentTags(r.pending))
    && (r.segments != [] ==>
          && p.pending == Own(r.pending) && p.segments[0].uri == r.segments[0].uri
          && Split(p.segments[0].tags, r.header, r.segments[0].tags) && AllSegmentTags(r.segments[0].tags))
    && forall i | 1 <= i < |r.segments| :: SameSegment(p.segments[i], r.segments[i])
  }

  lemma OwnSnoc(tags: seq<string>, line: string)
    ensures Own(tags + [line]) == if MediaSegmentTag(line) then Own(tags) + [line] else Own(tags)
  {
    SelectSnoc(tags, line, MediaSegmentTag);
  }

  lemma SplitSnoc(tags: seq<string>, header: seq<string>, block: seq<string>, line: string)
    requires Split(tags, header, block)
    ensures var after := if MediaSegmentTag(line) then tags + [line] else tags;
            if SegmentTag(line) then Split(after, header, block + [line]) else Split(after, header + [line], block)
  {
    hide MediaSegmentTag, SegmentTag;
    OwnSnoc(header, line);
    OwnSnoc(block, line);
    SortedSnoc(tags, line);
  }

  lemma SameNumberRead(line: string)
    requires StartsWith(line, MEDIA_SEQUENCE) && NumberIn(line).Some?
    ensures SequenceOf(line) == if NumberIn(line).value <= I64_MAX then NumberIn(line).value else 0
  {
    var s := Trim(line[|MEDIA_SEQUENCE|..]);
    assert s[0] in s && IsAsciiDigit(s[0]);
    DigitsParsed(s);
  }

  lemma DigitsParsed(s: string)
    requires s != "" && AllDigits(s)
    ensures ParseInt(s, I64_MIN, I64_MAX) == if DigitsValue(s) <= I64_MAX then Some(DigitsValue(s)) else None
  {
    assert s[0] in s && IsAsciiDigit(s[0]);
  }

  lemma EndIsNoSegmentTag(line: string)
    requires StartsWith(line, ENDLIST)
    ensures !MediaSegmentTag(line)
  {
    assert |ENDLIST| == 14 && line[4] == ENDLIST[4] && line[7] == ENDLIST[7] && line[8] == ENDLIST[8];
    assert ENDLIST[4] == '-' && ENDLIST[7] == 'E' && ENDLIST[8] == 'N';
    NotPrefix(EXTINF_COLON, line, 4);
    NotPrefix(BYTERANGE, line, 7);
    NotPrefix(DISCONTINUITY, line, 7);
    NotPrefix(KEY, line, 7);
    NotPrefix(MAP, line, 7);
    NotPrefix(PROGRAM_DATE, line, 7);
    NotPrefix(DATERANGE, line, 7);
  }

  lemma SegmentTagIsTag(line: string)
    requires MediaSegmentTag(line)
    ensures StartsWith(line, "#")
  {
    assert EXTINF_COLON[0] == '#' && BYTERANGE[0] == '#' && DISCONTINUITY[0] == '#' && KEY[0] == '#' && MAP[0] == '#';
    assert PROGRAM_DATE[0] == '#' && DATERANGE[0] == '#';
  }

  lemma JointTag(p: Playing, r: Reading, line: string)
    requires Joint(p, r) && TrimEnd(line) == line && StartsWith(line, "#") && !StartsWith(line, MEDIA_SEQUENCE)
    ensures Joint(PlayLine(p, line), ReadLine(r, line))
  {
    hide MediaSegmentTag, SegmentTag, Select, TrimEnd, SameNumber;
    NotBlank(line);
    if StartsWith(line, ENDLIST) {
      EndIsNoSegmentTag(line);
    } else {
      OwnSnoc(r.pending, line);
      if r.segments == [] { SplitSnoc(p.pending, r.header, r.pending, line); }
    }
  }

  lemma JointUri(p: Playing, r: Reading, line: string)
    requires Joint(p, r) && TrimEnd(line) == line && line != "" && !StartsWith(line, "#")
    ensures Joint(PlayLine(p, line), ReadLine(r, line))
  {
    hide MediaSegmentTag, SegmentTag, TrimEnd, SameNumber;
    NotBlank(line);
    OneCharPrefix(line, '#');
    NotATag(line);
    if MediaSegmentTag(line) { SegmentTagIsTag(line); }
    SelectAll([], MediaSegmentTag);
  }

  lemma JointNumber(p: Playing, r: Reading, line: string)
    requires Joint(p, r) && TrimEnd(line) == line && StartsWith(line, MEDIA_SEQUENCE)
    ensures Joint(PlayLine(p, line), ReadLine(r, line))
  {
    hide MediaSegmentTag, SegmentTag, Select, TrimEnd, SequenceOf, NumberIn;
    NotBlank(line);
    assert line != "" by { assert MEDIA_SEQUENCE != ""; }
    if NumberIn(line).Some? { SameNumberRead(line); }
  }

  lemma JointStep(p: Playing, r: Reading, raw: string)
    requires Joint(p, r)
    ensures Joint(PlayLine(p, raw), ReadLine(r, raw))
  {
    hide MediaSegmentTag, SegmentTag, Select, SequenceOf, NumberIn, Joint;
    var line := TrimEnd(raw);
    NotBlank(raw);
    assert PlayLine(p, line) == PlayLine(p, raw) && ReadLine(r, line) == ReadLine(r, raw);
    if line != "" {
      if StartsWith(line, MEDIA_SEQUENCE) {
        JointNumber(p, r, line);
      } else if StartsWith(line, "#") {
        JointTag(p, r, line);
      } else {
        JointUri(p, r, line);
      }
    }
  }

  lemma {:induction false} JointReading(lines: seq<string>)
    ensures Joint(Play(lines), Read(lines))
  {
    if lines == [] {
      SelectAll([], MediaSegmentTag);
      SelectAll([], SegmentTag);
    } else {
      hide Joint, PlayLine, ReadLine;
      JointReading(lines[..|lines| - 1]);
      JointStep(Play(lines[..|lines| - 1]), Read(lines[..|lines| - 1]), lines[|lines| - 1]);
    }
  }

  // ---------------------------------------------------------------------------
  // Sorting tags and rewriting them
  // ---------------------------------------------------------------------------

  lemma {:induction false} SelectConcat(a: seq<string>, b: seq<string>, keep: string -> bool)
    ensures Select(a + b, keep) == Select(a, keep) + Select(b, keep)
  {
    if b == [] {
      assert a + b == a;
    } else {
      var front, last := b[..|b| - 1], b[|b| - 1];
      assert b == front + [last] && a + b == a + front + [last];
      SelectConcat(a, front, keep);
      SelectSnoc(a + front, last, keep);
      SelectSnoc(front, last, keep);
    }
  }

  lemma {:induction false} SelectSwap(lines: seq<string>, f: string -> bool, g: string -> bool)
    ensures Select(Select(lines, f), g) == Select(Select(lines, g), f)
  {
    if lines != [] {
      var front, last := lines[..|lines| - 1], lines[|lines| - 1];
      assert lines == front + [last];
      SelectSwap(front, f, g);
      SelectSnoc(front, last, f);
      SelectSnoc(front, last, g);
      SelectSnoc(Select(front, f), last, g);
      SelectSnoc(Select(front, g), last, f);
    }
  }

  lemma {:induction false} SelectNone(lines: seq<string>, keep: string -> bool)
    ensures Select(lines, keep) == [] <==> forall line | line in lines :: !keep(line)
  {
    if lines != [] {
      var front, last := lines[..|lines| - 1], lines[|lines| - 1];
      assert lines == front + [last];
      SelectNone(front, keep);
    }
  }

  /** Sorting and rewriting may be done in either order when rewriting does not change how a tag sorts. */
  lemma {:induction false} RewriteSelect(c: Context, kind: Kind, tags: seq<string>, keep: string -> bool)
    requires forall tag | tag in tags :: keep(RewriteTag(c, kind, tag)) <==> keep(tag)
    ensures Select(RewriteTags(c, kind, tags), keep) == RewriteTags(c, kind, Select(tags, keep))
  {
    if tags == [] {
      assert RewriteTags(c, kind, tags) == [];
    } else {
      hide RewriteTag, Select, RewriteTags;
      var front, last := tags[..|tags| - 1], tags[|tags| - 1];
      assert tags == front + [last] && last in tags && forall tag | tag in front :: tag in tags;
      RewriteSelect(c, kind, front, keep);
      RewriteSnoc(c, kind, front, last);
      SelectSnoc(front, last, keep);
      SelectSnoc(RewriteTags(c, kind, front), RewriteTag(c, kind, last), keep);
      RewriteSnoc(c, kind, Select(front, keep), last);
    }
  }

  lemma RewriteSnoc(c: Context, kind: Kind, tags: seq<string>, line: string)
    ensures RewriteTags(c, kind, tags + [line]) == RewriteTags(c, kind, tags) + [RewriteTag(c, kind, line)]
  {
  }

  lemma PlayerNamesHaveNoQuote()
    ensures '"' !in EXTINF_COLON && '"' !in BYTERANGE && '"' !in DISCONTINUITY && '"' !in KEY && '"' !in MAP
    ensures '"' !in PROGRAM_DATE && '"' !in DATERANGE
  {
  }

  lemma RewrittenMediaTag(c: Context, kind: Kind, line: string)
    requires TrimEnd(line) == line
    ensures MediaSegmentTag(RewriteTag(c, kind, line)) <==> MediaSegmentTag(line)
  {
    hide RewriteTag;
    PlayerNamesHaveNoQuote();
    RewrittenTagText(c, kind, line);
    RewrittenTagName(c, kind, line, EXTINF_COLON);
    RewrittenTagName(c, kind, line, BYTERANGE);
    RewrittenTagName(c, kind, line, KEY);
    RewrittenTagName(c, kind, line, MAP);
    RewrittenTagName(c, kind, line, PROGRAM_DATE);
    RewrittenTagName(c, kind, line, DATERANGE);
  }

  predicate TrimmedTags(tags: seq<string>) { forall tag | tag in tags :: TrimEnd(tag) == tag }

  lemma RewriteOwn(c: Context, kind: Kind, tags: seq<string>)
    requires TrimmedTags(tags)
    ensures Own(RewriteTags(c, kind, tags)) == RewriteTags(c, kind, Own(tags))
  {
    hide MediaSegmentTag, RewriteTag;
    forall tag | tag in tags ensures MediaSegmentTag(RewriteTag(c, kind, tag)) <==> MediaSegmentTag(tag) {
      RewrittenMediaTag(c, kind, tag);
    }
    RewriteSelect(c, kind, tags, MediaSegmentTag);
  }

  lemma RewriteSorted(c: Context, kind: Kind, tags: seq<string>)
    ensures SegmentTags(RewriteTags(c, kind, tags)) == RewriteTags(c, kind, SegmentTags(tags))
    ensures Stray(RewriteTags(c, kind, tags)) == RewriteTags(c, kind, Stray(tags))
  {
    hide SegmentTag, RewriteTag;
    forall tag | tag in tags ensures SegmentTag(RewriteTag(c, kind, tag)) <==> SegmentTag(tag) {
      RewrittenSegmentTag(c, kind, tag);
    }
    RewriteSelect(c, kind, tags, SegmentTag);
    RewriteSelect(c, kind, tags, tag => !SegmentTag(tag));
  }

  /** The same tags: those the rewriter knows to belong to a segment in the same order, and so the others. */
  predicate SameTags(a: seq<string>, b: seq<string>) { SegmentTags(a) == SegmentTags(b) && Stray(a) == Stray(b) }

  lemma {:induction false} SortedTags(tags: seq<string>)
    ensures multiset(tags) == multiset(SegmentTags(tags)) + multiset(Stray(tags))
  {
    if tags != [] {
      hide SegmentTag;
      var front, last := tags[..|tags| - 1], tags[|tags| - 1];
      assert tags == front + [last];
      SortedTags(front);
      SortedSnoc(front, last);
    }
  }

  lemma SameTagsPermuted(a: seq<string>, b: seq<string>)
    requires SameTags(a, b)
    ensures multiset(a) == multiset(b)
  {
    SortedTags(a);
    SortedTags(b);
  }

  // ---------------------------------------------------------------------------
  // The rolling window
  // ---------------------------------------------------------------------------

  lemma OpenIsNoSegmentTag()
    ensures !MediaSegmentTag(EXTM3U)
  {
    assert |EXTM3U| == 7 && EXTM3U[4] == 'M';
    assert EXTINF_COLON[4] == 'I' && |BYTERANGE| > 7 && |DISCONTINUITY| > 7 && |KEY| > 7 && |MAP| > 7;
    assert |PROGRAM_DATE| > 7 && |DATERANGE| > 7;
    NotPrefix(EXTINF_COLON, EXTM3U, 4);
    NotPrefix(BYTERANGE, EXTM3U, 7);
    NotPrefix(KEY, EXTM3U, 7);
    NotPrefix(MAP, EXTM3U, 7);
    NotPrefix(PROGRAM_DATE, EXTM3U, 7);
    NotPrefix(DATERANGE, EXTM3U, 7);
  }

  lemma StartIsNoSegmentTag(line: string)
    requires START_TAG <= line
    ensures !MediaSegmentTag(line)
  {
    assert |START_TAG| > 8 && line[4] == START_TAG[4] && line[7] == START_TAG[7];
    assert START_TAG[4] == '-' && START_TAG[7] == 'S';
    assert EXTINF_COLON[4] == 'I' && BYTERANGE[7] == 'B' && DISCONTINUITY[7] == 'D' && KEY[7] == 'K' && MAP[7] == 'M';
    assert PROGRAM_DATE[7] == 'P' && DATERANGE[7] == 'D';
    NotPrefix(EXTINF_COLON, line, 4);
    NotPrefix(BYTERANGE, line, 7);
    NotPrefix(DISCONTINUITY, line, 7);
    NotPrefix(KEY, line, 7);
    NotPrefix(MAP, line, 7);
    NotPrefix(PROGRAM_DATE, line, 7);
    NotPrefix(DATERANGE, line, 7);
  }

  lemma StartLinesAreNotOwn(f: Floats, window: F64)
    ensures Own(StartLines(f, window)) == []
  {
    hide MediaSegmentTag, Select;
    forall line | line in StartLines(f, window) ensures !MediaSegmentTag(line) {
      assert START_TAG <= line;
      StartIsNoSegmentTag(line);
    }
    SelectAll(StartLines(f, window), MediaSegmentTag);
  }

  lemma OpenedOwn(header: seq<string>)
    ensures Own(Opened(header)) == Own(header)
  {
    hide MediaSegmentTag, Select;
    OpenIsNoSegmentTag();
    SelectConcat([EXTM3U], header, MediaSegmentTag);
    SelectAll([EXTM3U], MediaSegmentTag);
    assert [] + Own(header) == Own(header);
  }

  /** The segment tags in the served header: those of the upstream header. */
  lemma HeaderOwn(c: Context, f: Floats, r: Reading)
    requires OkReading(r)
    ensures Own(ServedHeader(c, f, r)) == RewriteTags(c, Resource, Own(r.header))
  {
    hide MediaSegmentTag, Select, SegmentTag, RewriteTag, StartLines, Window, Opened;
    var header := RewriteTags(c, Resource, r.header);
    assert TrimmedTags(r.header);
    RewriteOwn(c, Resource, r.header);
    OpenedOwn(header);
    StartLinesAreNotOwn(f, Window(f, r));
    SelectConcat(Opened(header), StartLines(f, Window(f, r)), MediaSegmentTag);
    assert Own(header) + [] == Own(header);
  }

  lemma SelectSorted(tags: seq<string>)
    ensures Own(SegmentTags(tags)) == SegmentTags(Own(tags)) && Own(Stray(tags)) == Stray(Own(tags))
  {
    hide MediaSegmentTag, SegmentTag;
    SelectSwap(tags, SegmentTag, MediaSegmentTag);
    SelectSwap(tags, tag => !SegmentTag(tag), MediaSegmentTag);
  }

  /** How the player sees the first served segment, told from the rewriter's reading of the upstream lines. */
  lemma FirstServed(c: Context, f: Floats, r: Reading, p: Playing)
    requires OkReading(r) && r.segments != [] && Joint(p, ServedReading(c, f, r))
    ensures var own := RewriteTags(c, Resource, Own(r.segments[Dropped(|r.segments|)].tags));
      && p.segments != [] && SegmentTags(p.segments[0].tags) == SegmentTags(own)
      && Stray(p.segments[0].tags) == RewriteTags(c, Resource, Own(r.header)) + Stray(own)
  {
    hide MediaSegmentTag, SegmentTag, Select, RewriteTag, ServedHeader, OkSegment, WrapI64;
    var d := Dropped(|r.segments|);
    var tags := RewriteTags(c, Resource, r.segments[d].tags);
    assert ServedSegments(c, r)[0].tags == tags;
    TagsAreTrimmed(r, d);
    RewriteOwn(c, Resource, r.segments[d].tags);
    HeaderOwn(c, f, r);
    SelectConcat(ServedHeader(c, f, r), Stray(tags), MediaSegmentTag);
    SelectSorted(tags);
  }

  lemma TagsAreTrimmed(r: Reading, i: nat)
    requires OkReading(r) && i < |r.segments|
    ensures TrimmedTags(r.segments[i].tags)
  {
    assert OkSegment(r.segments[i]);
  }

  lemma FirstTags(c: Context, r: Reading, p: Playing, own: seq<string>)
    requires OkReading(r) && r.segments != [] && Joint(p, r)
    requires own == RewriteTags(c, Resource, Own(r.segments[Dropped(|r.segments|)].tags))
    ensures var d, stray := Dropped(|r.segments|), RewriteTags(c, Resource, Own(r.header));
            var due := RewriteTags(c, Resource, p.segments[d].tags);
      && SegmentTags(own) == SegmentTags(due)
      && (stray + Stray(own) == Stray(due) <==> d == 0 || AllSegmentTags(p.segments[0].tags))
  {
    hide MediaSegmentTag, SegmentTag, Select, RewriteTag, OkSegment, SameNumber;
    var d, stray := Dropped(|r.segments|), RewriteTags(c, Resource, Own(r.header));
    RewriteSorted(c, Resource, p.segments[0].tags);
    RewriteSorted(c, Resource, Own(r.segments[0].tags));
    StrayNone(p.segments[0].tags);
    if d == 0 {
      SelectSorted(r.segments[0].tags);
      SelectAll(r.segments[0].tags, SegmentTag);
      SelectAll(r.segments[0].tags, tag => !SegmentTag(tag));
      SelectAll([], MediaSegmentTag);
      assert RewriteTags(c, Resource, []) == [];
    } else {
      assert SameSegment(p.segments[d], r.segments[d]);
      assert [] + Stray(own) == Stray(own);
    }
  }

  lemma StrayNone(tags: seq<string>)
    ensures Stray(tags) == [] <==> AllSegmentTags(tags)
  {
    hide SegmentTag;
    SelectNone(tags, tag => !SegmentTag(tag));
  }

  lemma LaterSegment(c: Context, f: Floats, r: Reading, upstream: Playing, served: Playing, i: nat)
    requires OkReading(r) && r.segments != [] && Joint(upstream, r) && Joint(served, ServedReading(c, f, r))
    requires i < |r.segments| - Dropped(|r.segments|)
    ensures var d := Dropped(|r.segments|);
      && |served.segments| == |r.segments| - d && |upstream.segments| == |r.segments|
      && served.segments[i].uri == RewriteUriLine(c, Resource, upstream.segments[d + i].uri)
      && (i > 0 ==> served.segments[i].tags == RewriteTags(c, Resource, upstream.segments[d + i].tags))
  {
    hide MediaSegmentTag, SegmentTag, Select, RewriteTag, RewriteUriLine, OkSegment, SameNumber, ServedHeader, WrapI64;
    var d := Dropped(|r.segments|);
    assert ServedSegments(c, r)[i] == RewriteSegment(c, Resource, r.segments[d + i]);
    if i > 0 {
      assert SameSegment(served.segments[i], ServedReading(c, f, r).segments[i]);
      assert SameSegment(upstream.segments[d + i], r.segments[d + i]);
      TagsAreTrimmed(r, d + i);
      RewriteOwn(c, Resource, r.segments[d + i].tags);
    } else if d > 0 {
      assert SameSegment(upstream.segments[d], r.segments[d]);
    }
  }

  /** The playlist has segments, for the player and for the rewriter. */
  lemma BothRead(c: Context, f: Floats, playlist: string)
    requires ContextOk(c) && PrintsDigits(f) && PlayText(playlist).segments != []
    ensures var r := ReadText(playlist);
      && OkReading(r) && r.segments != [] && Joint(PlayText(playlist), r)
      && |r.segments| == |PlayText(playlist).segments|
      && Joint(PlayText(ServedText(c, f, playlist)), ServedReading(c, f, r))
  {
    hide Lines, ServedText, ServedReading, OkReading, Read, Play;
    JointReading(Lines(playlist));
    ReadServedText(c, f, playlist);
    JointReading(Lines(ServedText(c, f, playlist)));
  }

  lemma ServedCount(c: Context, f: Floats, playlist: string)
    requires ContextOk(c) && PrintsDigits(f) && PlayText(playlist).segments != []
    ensures var upstream, served := PlayText(playlist).segments, PlayText(ServedText(c, f, playlist)).segments;
            |served| == |upstream| - Dropped(|upstream|)
  {
    hide PlayText, ReadText, ServedText, ServedReading, Joint, OkReading;
    BothRead(c, f, playlist);
    LaterSegment(c, f, ReadText(playlist), PlayText(playlist), PlayText(ServedText(c, f, playlist)), 0);
  }

  ghost predicate PlaysSegmentTags(p: Playing) {
    && (forall tag | tag in p.pending :: MediaSegmentTag(tag))
    && forall s, tag | s in p.segments && tag in s.tags :: MediaSegmentTag(tag)
  }

  lemma {:induction false} PlayedTags(lines: seq<string>)
    ensures PlaysSegmentTags(Play(lines))
  {
    if lines != [] {
      hide MediaSegmentTag, NumberIn;
      PlayedTags(lines[..|lines| - 1]);
      PlayLineKeepsTags(PlayFrom(SILENT, lines[..|lines| - 1]), lines[|lines| - 1]);
    }
  }

  lemma PlayLineKeepsTags(p: Playing, raw: string)
    requires PlaysSegmentTags(p)
    ensures PlaysSegmentTags(PlayLine(p, raw))
  {
    hide MediaSegmentTag, NumberIn, TrimEnd;
    var after, line := PlayLine(p, raw), TrimEnd(raw);
    forall tag | tag in after.pending ensures MediaSegmentTag(tag) {
      if tag !in p.pending { assert tag == line; }
    }
    forall s, tag | s in after.segments && tag in s.tags ensures MediaSegmentTag(tag) {
      if s !in p.segments { assert s == Segment(p.pending, line); }
    }
  }

  /** Of the segment tags, byte ranges and date ranges are those that the rewriter takes for the playlist's. */
  predicate NoRange(tags: seq<string>) {
    forall tag | tag in tags :: !StartsWith(tag, "#EXT-X-BYTERANGE:") && !StartsWith(tag, "#EXT-X-DATERANGE:")
  }

  lemma DateRangeIsStray(tag: string)
    requires StartsWith(tag, DATERANGE)
    ensures !SegmentTag(tag)
  {
    assert |DATERANGE| > 9 && DATERANGE[4] == '-' && DATERANGE[7] == 'D' && DATERANGE[8] == 'A';
    assert tag[4] == DATERANGE[4] && tag[7] == DATERANGE[7] && tag[8] == DATERANGE[8];
    NotPrefix(EXTINF, tag, 4);
    NotPrefix("#EXT-X-KEY", tag, 7);
    NotPrefix("#EXT-X-MAP", tag, 7);
    NotPrefix("#EXT-X-PROGRAM-DATE-TIME", tag, 7);
    NotPrefix("#EXT-X-DISCONTINUITY", tag, 8);
  }

  lemma RangeIsNoSegmentTag(tag: string)
    requires MediaSegmentTag(tag)
    ensures SegmentTag(tag) <==> !StartsWith(tag, "#EXT-X-BYTERANGE:") && !StartsWith(tag, "#EXT-X-DATERANGE:")
  {
    if StartsWith(tag, BYTERANGE) {
      RangeIsStray(tag);
    } else if StartsWith(tag, DATERANGE) {
      DateRangeIsStray(tag);
    } else {
      OtherIsSegmentTag(tag);
    }
  }

  lemma OtherIsSegmentTag(tag: string)
    requires MediaSegmentTag(tag) && !StartsWith(tag, BYTERANGE) && !StartsWith(tag, DATERANGE)
    ensures SegmentTag(tag)
  {
    assert PROGRAM_DATE[..24] == "#EXT-X-PROGRAM-DATE-TIME";
    if StartsWith(tag, PROGRAM_DATE) { assert tag[..24] == PROGRAM_DATE[..24]; }
    if StartsWith(tag, KEY) { ScopedIsSegmentTag(KEY, tag); }
    if StartsWith(tag, MAP) { ScopedIsSegmentTag(MAP, tag); }
    ExtinfIsTag(tag);
  }

  lemma NoRangeExactly(playlist: string)
    requires PlayText(playlist).segments != []
    ensures AllSegmentTags(PlayText(playlist).segments[0].tags) <==> NoRange(PlayText(playlist).segments[0].tags)
  {
    PlayedTags(Lines(playlist));
    hide MediaSegmentTag, SegmentTag, Play, Lines;
    var first := PlayText(playlist).segments[0];
    assert first in PlayText(playlist).segments;
    forall tag | tag in first.tags
      ensures SegmentTag(tag) <==> !StartsWith(tag, "#EXT-X-BYTERANGE:") && !StartsWith(tag, "#EXT-X-DATERANGE:")
    {
      RangeIsNoSegmentTag(tag);
    }
  }

  /** The first served segment has its own tags exactly if nothing was dropped, or ahead of the first upstream
      segment stands no EXT-X-BYTERANGE and no EXT-X-DATERANGE, which the rewriter takes for the playlist's. */
  lemma FirstTagsExactly(c: Context, f: Floats, playlist: string)
    requires ContextOk(c) && PrintsDigits(f) && PlayText(playlist).segments != []
    ensures var upstream, served := PlayText(playlist).segments, PlayText(ServedText(c, f, playlist)).segments;
            served != []
            && (SameTags(served[0].tags, RewriteTags(c, Resource, upstream[Dropped(|upstream|)].tags))
                <==> |upstream| <= 8 || NoRange(upstream[0].tags))
    ensures var upstream, served := PlayText(playlist).segments, PlayText(ServedText(c, f, playlist)).segments;
            SegmentTags(served[0].tags)
            == SegmentTags(RewriteTags(c, Resource, upstream[Dropped(|upstream|)].tags))
  {
    hide PlayText, ReadText, ServedText, ServedReading, Joint, RewriteTags, OkReading, AllSegmentTags, SegmentTags,
         Stray, NoRange;
    NoRangeExactly(playlist);
    var r := ReadText(playlist);
    var upstream, served := PlayText(playlist), PlayText(ServedText(c, f, playlist));
    BothRead(c, f, playlist);
    LaterSegment(c, f, r, upstream, served, 0);
    FirstServed(c, f, r, served);
    FirstTags(c, r, upstream, RewriteTags(c, Resource, Own(r.segments[Dropped(|r.segments|)].tags)));
  }

  /** A player of the served playlist reads exactly the last min(n, 8) upstream segments, in order, with
      rewritten URIs, and each but the first with its own tags. */
  lemma KeepsLastSegments(c: Context, f: Floats, playlist: string)
    requires ContextOk(c) && PrintsDigits(f) && PlayText(playlist).segments != []
    ensures var upstream, served := PlayText(playlist).segments, PlayText(ServedText(c, f, playlist)).segments;
            var n := |upstream|;
            var d := Dropped(n);
      && |served| == n - d == (if n < 8 then n else 8)
      && (forall i | 0 <= i < n - d :: served[i].uri == RewriteUriLine(c, Resource, upstream[d + i].uri))
      && (forall i | 1 <= i < n - d :: served[i].tags == RewriteTags(c, Resource, upstream[d + i].tags))
  {
    hide PlayText, ReadText, ServedText, ServedReading, Joint, RewriteTags, RewriteUriLine, OkReading;
    ServedCount(c, f, playlist);
    var upstream, served := PlayText(playlist), PlayText(ServedText(c, f, playlist));
    var d := Dropped(|upstream.segments|);
    forall i | 0 <= i < |served.segments|
      ensures served.segments[i].uri == RewriteUriLine(c, Resource, upstream.segments[d + i].uri)
      ensures i > 0 ==> served.segments[i].tags == RewriteTags(c, Resource, upstream.segments[d + i].tags)
    {
      BothRead(c, f, playlist);
      LaterSegment(c, f, ReadText(playlist), upstream, served, i);
    }
  }

  // ---------------------------------------------------------------------------
  // Sequence numbers
  // ---------------------------------------------------------------------------

  function Pow10(k: nat): nat { if k == 0 then 1 else 10 * Pow10(k - 1) }

  lemma {:induction false} DigitsBound(n: nat, k: nat)
    requires 0 < k && n < Pow10(k)
    ensures |NatToString(n)| <= k
  {
    if n >= 10 {
      assert k > 1 by { assert Pow10(1) == 10; }
      DigitsBound(n / 10, k - 1);
    }
  }

  lemma {:induction false} Pow10Plus(a: nat, b: nat)
    ensures Pow10(a + b) == Pow10(a) * Pow10(b)
  {
    if a > 0 {
      Pow10Plus(a - 1, b);
      assert 10 * (Pow10(a - 1) * Pow10(b)) == 10 * Pow10(a - 1) * Pow10(b);
    }
  }

  lemma I64IsShort()
    ensures I64_MAX < Pow10(20)
  {
    assert Pow10(5) == 100_000 by { assert Pow10(1) == 10 && Pow10(2) == 100 && Pow10(3) == 1_000
        && Pow10(4) == 10_000; }
    Pow10Plus(5, 5);
    Pow10Plus(10, 10);
  }

  lemma PrintedNumber(n: int)
    requires I64_MIN <= n <= I64_MAX
    ensures DecimalInteger(IntToString(n)) == if n >= 0 then Some(n) else None
  {
    hide Pow10;
    if n >= 0 {
      I64IsShort();
      DigitsBound(n, 20);
      DigitsOfNat(n);
    } else {
      assert IntToString(n)[0] == '-' && '-' in IntToString(n);
    }
  }

  lemma SequenceLineNumber(n: int)
    ensures StartsWith(SequenceLine(n), MEDIA_SEQUENCE)
    ensures NumberIn(SequenceLine(n)) == if WrapI64(n) >= 0 then Some(WrapI64(n)) else None
  {
    hide IntToString, WrapI64, DecimalInteger;
    var digits := IntToString(WrapI64(n));
    PrintedIsClean(WrapI64(n));
    TrimmedIsFixed(digits);
    PrintedNumber(WrapI64(n));
    assert SequenceLine(n)[|MEDIA_SEQUENCE|..] == digits;
  }

  predicate NoNumber(lines: seq<string>) {
    forall line | line in lines :: !StartsWith(TrimEnd(line), MEDIA_SEQUENCE)
  }

  lemma {:induction false} SequenceStays(p: Playing, lines: seq<string>)
    requires NoNumber(lines)
    ensures PlayFrom(p, lines).sequence == p.sequence
  {
    if lines != [] {
      hide MediaSegmentTag;
      assert lines[|lines| - 1] in lines && forall line | line in lines[..|lines| - 1] :: line in lines;
      SequenceStays(p, lines[..|lines| - 1]);
    }
  }

  lemma {:induction false} PlayConcat(p: Playing, a: seq<string>, b: seq<string>)
    ensures PlayFrom(p, a + b) == PlayFrom(PlayFrom(p, a), b)
  {
    hide PlayLine;
    if b == [] {
      assert a + b == a;
    } else {
      assert (a + b)[..|a + b| - 1] == a + b[..|b| - 1];
      PlayConcat(p, a, b[..|b| - 1]);
    }
  }

  lemma {:induction false} BlocksHaveNoNumber(segments: seq<Segment>)
    requires forall s | s in segments :: OkSegment(s)
    ensures NoNumber(Flatten(BlocksOf(segments)))
  {
    if segments != [] {
      var front, last := segments[..|segments| - 1], segments[|segments| - 1];
      assert segments == front + [last];
      assert OkSegment(last) && forall s | s in front :: s in segments;
      BlocksHaveNoNumber(front);
      BlocksSnoc(front, last);
      NotATag(last.uri);
    }
  }

  /** The number a player reads from the served lines: the new one, if it did not wrap. */
  lemma ServedNumber(c: Context, f: Floats, r: Reading)
    requires ContextOk(c) && OkReading(r)
    ensures var w := WrapI64(r.sequence + Dropped(|r.segments|));
            Play(Served(c, f, r)).sequence == if w >= 0 then Some(w) else None
  {
    hide Served, ServedHeader, SequenceLine, Flatten, BlocksOf, WrapI64, NumberIn, OkSegment, MediaSegmentTag, NoNumber,
         OkReading;
    var line, blocks := SequenceLine(r.sequence + Dropped(|r.segments|)), Flatten(BlocksOf(ServedSegments(c, r)));
    ServedParts(c, f, r);
    PlayConcat(SILENT, ServedHeader(c, f, r) + [line], blocks);
    PlaySnoc(SILENT, ServedHeader(c, f, r), line);
    ReadSequenceLine(NOTHING, r.sequence + Dropped(|r.segments|));
    SequenceLineNumber(r.sequence + Dropped(|r.segments|));
    ServedSegmentsAreOk(c, r);
    BlocksHaveNoNumber(ServedSegments(c, r));
    SequenceStays(PlayFrom(SILENT, ServedHeader(c, f, r) + [line]), blocks);
  }

  lemma NumberWraps(m: nat, d: nat, sequence: int, served: Option<nat>)
    requires sequence == if m <= I64_MAX then m else 0
    requires served == if WrapI64(sequence + d) >= 0 then Some(WrapI64(sequence + d)) else None
    ensures served == Some(m + d) <==> m + d <= I64_MAX
  {
  }

  /** Each served segment has the media sequence number it had upstream, which may be any decimal-integer, if
      and only if that of the first one fits an i64. */
  lemma KeepsSequenceNumbers(c: Context, f: Floats, playlist: string, i: nat)
    requires ContextOk(c) && PrintsDigits(f)
    requires PlayText(playlist).segments != [] && PlayText(playlist).sequence.Some?
    ensures var upstream, served := PlayText(playlist), PlayText(ServedText(c, f, playlist));
            var d := Dropped(|upstream.segments|);
            NumberOf(served, i) == NumberOf(upstream, d + i) <==> NumberFits(upstream)
  {
    hide Lines, Served, ServedReading, OkReading, Read, Play, WrapI64, Tidy, Select, MediaSegmentTag, SegmentTag;
    var r := ReadText(playlist);
    BothRead(c, f, playlist);
    ServedIsTidy(c, f, r);
    TidyLines(Served(c, f, r));
    ServedNumber(c, f, r);
    NumberWraps(PlayText(playlist).sequence.value, Dropped(|r.segments|), r.sequence,
                PlayText(ServedText(c, f, playlist)).sequence);
  }

  /** The number of the first segment that is served fits an i64. */
  predicate NumberFits(p: Playing) {
    p.sequence.Some? && p.sequence.value + Dropped(|p.segments|) <= I64_MAX
  }

  // ---------------------------------------------------------------------------
  // Refreshes
  // ---------------------------------------------------------------------------

  /** The same number names the same segment. */
  predicate Agree(a: Playing, b: Playing) {
    forall i, j | 0 <= i < |a.segments| && 0 <= j < |b.segments| && NumberOf(a, i) == NumberOf(b, j) ::
      a.segments[i].uri == b.segments[j].uri && SameTags(a.segments[i].tags, b.segments[j].tags)
  }

  /** The first served segment has its own tags. */
  predicate KeepsTags(p: Playing) {
    p.segments != [] && (|p.segments| <= 8 || NoRange(p.segments[0].tags))
  }

  lemma RewriteSame(c: Context, a: seq<string>, b: seq<string>)
    requires SameTags(a, b)
    ensures SameTags(RewriteTags(c, Resource, a), RewriteTags(c, Resource, b))
  {
    hide Select, RewriteTag, SegmentTag;
    RewriteSorted(c, Resource, a);
    RewriteSorted(c, Resource, b);
  }

  /** A served segment is an upstream one, under its number. */
  lemma ServedSegmentAt(c: Context, f: Floats, playlist: string, i: nat)
    requires ContextOk(c) && PrintsDigits(f) && KeepsTags(PlayText(playlist)) && NumberFits(PlayText(playlist))
    requires i < |PlayText(ServedText(c, f, playlist)).segments|
    ensures var upstream, served := PlayText(playlist), PlayText(ServedText(c, f, playlist));
            var j := Dropped(|upstream.segments|) + i;
      && j < |upstream.segments| && NumberOf(served, i) == NumberOf(upstream, j)
      && served.segments[i].uri == RewriteUriLine(c, Resource, upstream.segments[j].uri)
      && SameTags(served.segments[i].tags, RewriteTags(c, Resource, upstream.segments[j].tags))
  {
    hide PlayText, ServedText, RewriteTags, RewriteUriLine, AllSegmentTags, SegmentTags, Stray;
    KeepsLastSegments(c, f, playlist);
    FirstTagsExactly(c, f, playlist);
    KeepsSequenceNumbers(c, f, playlist, i);
  }

  /** Refreshes agree on numbering: when two fetches of a stream do, so do the playlists served for them,
      however far the window moved in between. */
  lemma RefreshesAgree(c: Context, f: Floats, earlier: string, later: string)
    requires ContextOk(c) && PrintsDigits(f) && Agree(PlayText(earlier), PlayText(later))
    requires KeepsTags(PlayText(earlier)) && NumberFits(PlayText(earlier))
    requires KeepsTags(PlayText(later)) && NumberFits(PlayText(later))
    ensures Agree(PlayText(ServedText(c, f, earlier)), PlayText(ServedText(c, f, later)))
  {
    hide PlayText, ServedText, RewriteTags, RewriteUriLine, KeepsTags, NumberFits, NumberOf, SameTags;
    var a, b := PlayText(ServedText(c, f, earlier)), PlayText(ServedText(c, f, later));
    forall i, j | 0 <= i < |a.segments| && 0 <= j < |b.segments| && NumberOf(a, i) == NumberOf(b, j)
      ensures a.segments[i].uri == b.segments[j].uri && SameTags(a.segments[i].tags, b.segments[j].tags)
    {
      ServedSegmentAt(c, f, earlier, i);
      ServedSegmentAt(c, f, later, j);
      var p, q := PlayText(earlier), PlayText(later);
      var x, y := p.segments[Dropped(|p.segments|) + i].tags, q.segments[Dropped(|q.segments|) + j].tags;
      RewriteSame(c, x, y);
      SameTagsTrans(a.segments[i].tags, RewriteTags(c, Resource, x), RewriteTags(c, Resource, y), b.segments[j].tags);
    }
  }

  lemma SameTagsTrans(a: seq<string>, x: seq<string>, y: seq<string>, b: seq<string>)
    requires SameTags(a, x) && SameTags(x, y) && SameTags(b, y)
    ensures SameTags(a, b)
  {
  }

  // ---------------------------------------------------------------------------
  // Keys and initialisation segments
  // ---------------------------------------------------------------------------

  /** The last of these tags with that name. */
  function LastNamed(tags: seq<string>, name: string): Option<string> {
    if tags == [] then None
    else if StartsWith(tags[|tags| - 1], name) then Some(tags[|tags| - 1])
    else LastNamed(tags[..|tags| - 1], name)
  }

  /** EXT-X-KEY and EXT-X-MAP apply to all segments up to the next tag of that name (sections 4.3.2.4 and
      4.3.2.5): the one that applies to segment `i`. */
  function InEffect(segments: seq<Segment>, i: nat, name: string): Option<string>
    requires i < |segments|
  {
    if LastNamed(segments[i].tags, name).Some? then LastNamed(segments[i].tags, name)
    else if i == 0 then None
    else InEffect(segments, i - 1, name)
  }

  predicate Carries(s: Segment, name: string) { LastNamed(s.tags, name).Some? }

  predicate Scoped(name: string) { name == KEY || name == MAP }

  function RewriteFound(c: Context, tag: Option<string>): Option<string> {
    if tag.Some? then Some(RewriteTag(c, Resource, tag.value)) else None
  }

  lemma ScopedIsSegmentTag(name: string, line: string)
    requires Scoped(name) && StartsWith(line, name)
    ensures SegmentTag(line)
  {
    assert KEY[..10] == "#EXT-X-KEY" && MAP[..10] == "#EXT-X-MAP";
    assert line[..10] == name[..10];
  }

  lemma LastNamedSnoc(tags: seq<string>, last: string, name: string)
    ensures LastNamed(tags + [last], name) == if StartsWith(last, name) then Some(last) else LastNamed(tags, name)
  {
    assert (tags + [last])[..|tags|] == tags;
  }

  /** Sorting out tags loses none of a name that is kept. */
  lemma {:induction false} LastNamedSelect(tags: seq<string>, name: string, keep: string -> bool)
    requires forall line | StartsWith(line, name) :: keep(line)
    ensures LastNamed(Select(tags, keep), name) == LastNamed(tags, name)
  {
    if tags != [] {
      hide Select;
      var front, last := tags[..|tags| - 1], tags[|tags| - 1];
      assert tags == front + [last];
      LastNamedSelect(front, name, keep);
      SelectSnoc(front, last, keep);
      LastNamedSnoc(Select(front, keep), last, name);
    } else {
      SelectAll([], keep);
    }
  }

  lemma LastNamedSorted(tags: seq<string>, name: string)
    requires Scoped(name)
    ensures LastNamed(SegmentTags(tags), name) == LastNamed(tags, name)
  {
    hide SegmentTag, Scoped, Select, LastNamed;
    forall line | StartsWith(line, name) ensures SegmentTag(line) { ScopedIsSegmentTag(name, line); }
    LastNamedSelect(tags, name, SegmentTag);
  }

  lemma {:induction false} LastNamedRewritten(c: Context, tags: seq<string>, name: string)
    requires Scoped(name)
    ensures LastNamed(RewriteTags(c, Resource, tags), name) == RewriteFound(c, LastNamed(tags, name))
  {
    if tags != [] {
      hide RewriteTag;
      var front, last := tags[..|tags| - 1], tags[|tags| - 1];
      assert tags == front + [last];
      PlayerNamesHaveNoQuote();
      LastNamedRewritten(c, front, name);
      RewriteSnoc(c, Resource, front, last);
      LastNamedSnoc(RewriteTags(c, Resource, front), RewriteTag(c, Resource, last), name);
      RewrittenTagName(c, Resource, last, name);
    } else {
      assert RewriteTags(c, Resource, tags) == [];
    }
  }

  lemma ServedCarries(c: Context, f: Floats, playlist: string, i: nat, name: string)
    requires ContextOk(c) && PrintsDigits(f) && PlayText(playlist).segments != [] && Scoped(name)
    requires i < |PlayText(ServedText(c, f, playlist)).segments|
    ensures var upstream, served := PlayText(playlist).segments, PlayText(ServedText(c, f, playlist)).segments;
            var d := Dropped(|upstream|);
            d + i < |upstream| && LastNamed(served[i].tags, name)
                == RewriteFound(c, LastNamed(upstream[d + i].tags, name))
  {
    hide PlayText, ServedText, RewriteTags, SegmentTags, Stray, LastNamed, RewriteFound, SameTags, AllSegmentTags,
         RewriteUriLine, Scoped;
    var upstream, served := PlayText(playlist).segments, PlayText(ServedText(c, f, playlist)).segments;
    KeepsLastSegments(c, f, playlist);
    var tags := upstream[Dropped(|upstream|) + i].tags;
    LastNamedRewritten(c, tags, name);
    if i == 0 {
      FirstTagsExactly(c, f, playlist);
      LastNamedSorted(served[0].tags, name);
      LastNamedSorted(RewriteTags(c, Resource, tags), name);
    }
  }

  lemma {:induction false} NoneInEffect(segments: seq<Segment>, i: nat, name: string)
    requires i < |segments|
    ensures InEffect(segments, i, name) == None <==> forall j | 0 <= j <= i :: !Carries(segments[j], name)
  {
    if i > 0 && !Carries(segments[i], name) { NoneInEffect(segments, i - 1, name); }
  }

  lemma {:induction false} WindowInEffect(c: Context, upstream: seq<Segment>, served: seq<Segment>, d: nat, i: nat,
                                         name: string)
    requires |served| + d == |upstream| && i < |served|
    requires forall j | 0 <= j < |served| ::
               LastNamed(served[j].tags, name) == RewriteFound(c, LastNamed(upstream[d + j].tags, name))
    ensures InEffect(served, i, name) == RewriteFound(c, InEffect(upstream, d + i, name))
       <==> (exists j :: d <= j <= d + i && Carries(upstream[j], name))
            || forall j | 0 <= j < d :: !Carries(upstream[j], name)
  {
    hide LastNamed, RewriteTag;
    if Carries(upstream[d + i], name) {
    } else if i > 0 {
      WindowInEffect(c, upstream, served, d, i - 1, name);
    } else if d > 0 {
      NoneInEffect(upstream, d - 1, name);
    }
  }

  /** A served segment is decrypted with the key it had upstream, and initialised with the same section, exactly
      if a tag that says so is among the kept segments up to it or none stood ahead of the window. A key that
      is named once, ahead of the first segment, is lost when that segment is dropped. */
  lemma InEffectExactly(c: Context, f: Floats, playlist: string, i: nat, name: string)
    requires ContextOk(c) && PrintsDigits(f) && PlayText(playlist).segments != [] && Scoped(name)
    requires i < |PlayText(ServedText(c, f, playlist)).segments|
    ensures var upstream, served := PlayText(playlist).segments, PlayText(ServedText(c, f, playlist)).segments;
            var d := Dropped(|upstream|);
            d + i < |upstream|
            && (InEffect(served, i, name) == RewriteFound(c, InEffect(upstream, d + i, name))
                <==> (exists j :: d <= j <= d + i && Carries(upstream[j], name))
                     || forall j | 0 <= j < d :: !Carries(upstream[j], name))
  {
    hide PlayText, ServedText, LastNamed, RewriteFound, InEffect, Scoped;
    var upstream, served := PlayText(playlist).segments, PlayText(ServedText(c, f, playlist)).segments;
    ServedCount(c, f, playlist);
    forall j | 0 <= j < |served|
      ensures LastNamed(served[j].tags, name)
           == RewriteFound(c, LastNamed(upstream[Dropped(|upstream|) + j].tags, name))
    {
      ServedCarries(c, f, playlist, j, name);
    }
    WindowInEffect(c, upstream, served, Dropped(|upstream|), i, name);
  }

  // ---------------------------------------------------------------------------
  // Durations and the start hint
  // ---------------------------------------------------------------------------

  /** An EXTINF tag with this text for its duration and any title, or none (section 4.3.2.1). */
  ghost predicate Announces(tag: string, d: string) {
    ',' !in d && (tag == "#EXTINF:" + d || exists title :: tag == "#EXTINF:" + d + "," + title)
  }

  /** A segment with these tags lasts `x` seconds: its last EXTINF says so; text that is no number, or no
      EXTINF at all, counts as none. */
  ghost predicate Lasts(f: Floats, tags: seq<string>, x: F64) {
    match LastNamed(tags, EXTINF_COLON)
    case None => x == Finite(0.0)
    case Some(tag) =>
      exists d :: Announces(tag, d) && (f.parse(Trim(d)) == Some(x) || (f.parse(Trim(d)) == None && x == Finite(0.0)))
  }

  /** Every EXTINF announces some text, so every segment lasts some time. */
  lemma EveryExtinfAnnounces(tag: string)
    requires StartsWith(tag, EXTINF_COLON)
    ensures exists d :: Announces(tag, d)
  {
    var value := tag[|EXTINF_COLON|..];
    var d := value[..IndexOfChar(value, ',')];
    assert tag == EXTINF_COLON + value;
    if |d| < |value| {
      assert value == d + "," + value[|d| + 1..];
      assert tag == EXTINF_COLON + d + "," + value[|d| + 1..];
    } else {
      assert value == d;
    }
    assert Announces(tag, d);
  }

  lemma AnnouncedText(tag: string, d: string)
    requires Announces(tag, d)
    ensures StartsWith(tag, EXTINF_COLON)
    ensures var value := tag[|EXTINF_COLON|..]; value[..IndexOfChar(value, ',')] == d
  {
    if tag == EXTINF_COLON + d {
      IndexOfCharAt(d, "", ',');
      assert tag[|EXTINF_COLON|..] == d;
    } else {
      var title :| tag == EXTINF_COLON + d + "," + title;
      IndexOfCharAt(d, title, ',');
      assert tag[|EXTINF_COLON|..] == d + [','] + title;
    }
  }

  lemma {:induction false} DurationIsLast(f: Floats, tags: seq<string>)
    ensures LastNamed(tags, EXTINF_COLON).Some? ==> StartsWith(LastNamed(tags, EXTINF_COLON).value, EXTINF_COLON)
    ensures Duration(f, tags) == match LastNamed(tags, EXTINF_COLON)
                                 case None => Finite(0.0)
                                 case Some(tag) => ExtinfSeconds(f, tag)
  {
    if tags != [] { DurationIsLast(f, tags[..|tags| - 1]); }
  }

  /** The duration the rewriter counts for a segment is the one it lasts. */
  lemma CountsDuration(f: Floats, tags: seq<string>, x: F64)
    requires Lasts(f, tags, x)
    ensures Duration(f, tags) == x
  {
    DurationIsLast(f, tags);
    match LastNamed(tags, EXTINF_COLON)
    case None =>
    case Some(tag) =>
      var d :| Announces(tag, d) && (f.parse(Trim(d)) == Some(x) || (f.parse(Trim(d)) == None && x == Finite(0.0)));
      AnnouncedText(tag, d);
  }

  lemma SameDuration(f: Floats, a: seq<string>, b: seq<string>)
    requires LastNamed(a, EXTINF_COLON) == LastNamed(b, EXTINF_COLON)
    ensures Duration(f, a) == Duration(f, b)
  {
    DurationIsLast(f, a);
    DurationIsLast(f, b);
  }

  /** Player and rewriter count the same durations. */
  lemma JointDuration(f: Floats, p: Playing, r: Reading, i: nat)
    requires Joint(p, r) && i < |r.segments|
    ensures Duration(f, r.segments[i].tags) == Duration(f, p.segments[i].tags)
  {
    hide Select, SegmentTag, MediaSegmentTag, Duration, LastNamed, SameNumber;
    var tags := r.segments[i].tags;
    forall line | StartsWith(line, EXTINF_COLON) ensures SegmentTag(line) && MediaSegmentTag(line) {
      ExtinfIsTag(line);
      ExtinfIsOwn(line);
    }
    LastNamedSelect(tags, EXTINF_COLON, MediaSegmentTag);
    LastNamedSelect(p.segments[i].tags, EXTINF_COLON, SegmentTag);
    if i > 0 { assert SameSegment(p.segments[i], r.segments[i]); }
    SameDuration(f, tags, p.segments[i].tags);
  }

  lemma ExtinfIsOwn(line: string)
    requires StartsWith(line, EXTINF_COLON)
    ensures MediaSegmentTag(line)
  {
  }

  /** Durations are added up one by one. */
  function Total(seconds: seq<real>): real {
    if seconds == [] then 0.0 else seconds[0] + Total(seconds[1..])
  }

  lemma {:induction false} TotalSnoc(seconds: seq<real>, last: real)
    ensures Total(seconds + [last]) == Total(seconds) + last
  {
    if seconds == [] {
      assert [] + [last] == [last] && [last][1..] == [];
    } else {
      assert (seconds + [last])[1..] == seconds[1..] + [last];
      TotalSnoc(seconds[1..], last);
    }
  }

  lemma {:induction false} SumIsTotal(xs: seq<F64>, seconds: seq<real>)
    requires |xs| == |seconds| && forall i | 0 <= i < |xs| :: xs[i] == Finite(seconds[i])
    ensures Sum(xs) == Finite(Total(seconds))
  {
    if xs != [] {
      var n := |xs| - 1;
      assert seconds == seconds[..n] + [seconds[n]];
      SumIsTotal(xs[..n], seconds[..n]);
      TotalSnoc(seconds[..n], seconds[n]);
    }
  }

  /** Seconds behind the live edge: half the window, but at most 18. */
  function HintSeconds(total: real): real { if total / 2.0 < 18.0 then total / 2.0 else 18.0 }

  /** The start hint for a window of that many seconds. */
  function Hint(f: Floats, total: real): seq<string> {
    if total >= 4.0 then ["#EXT-X-START:TIME-OFFSET=-" + f.print3(HintSeconds(total)) + ",PRECISE=NO"] else []
  }

  lemma HintIs(f: Floats, total: real)
    ensures StartLines(f, Finite(total)) == Hint(f, total)
  {
    assert Half(Finite(total)) == Finite(total / 2.0);
  }

  /** Durations that add up to no number or without bound count as a long window, so the hint says 18 seconds. */
  lemma OddWindows(f: Floats)
    ensures StartLines(f, NaN) == ["#EXT-X-START:TIME-OFFSET=-" + f.print3(18.0) + ",PRECISE=NO"]
    ensures StartLines(f, PosInf) == StartLines(f, NaN) && StartLines(f, NegInf) == []
  {
  }

  /** Each of the last min(n, 8) segments lasts this long. */
  ghost predicate LastLast(f: Floats, p: Playing, xs: seq<F64>) {
    var n := |p.segments|;
    && |xs| == (if n < 8 then n else 8)
    && forall i | 0 <= i < |xs| :: Lasts(f, p.segments[n - |xs| + i].tags, xs[i])
  }

  function Seconds(seconds: seq<real>): (xs: seq<F64>)
    ensures |xs| == |seconds| && forall i | 0 <= i < |seconds| :: xs[i] == Finite(seconds[i])
  {
    seq(|seconds|, i requires 0 <= i < |seconds| => Finite(seconds[i]))
  }

  /** The window the rewriter counts is what the served segments last. */
  lemma WindowIsSum(c: Context, f: Floats, playlist: string, xs: seq<F64>)
    requires ContextOk(c) && PrintsDigits(f) && PlayText(playlist).segments != []
    requires LastLast(f, PlayText(playlist), xs)
    ensures Window(f, ReadText(playlist)) == Sum(xs)
  {
    hide PlayText, ReadText, ServedText, ServedReading, OkReading, Joint, Lasts, Duration, Sum;
    var p, r := PlayText(playlist), ReadText(playlist);
    BothRead(c, f, playlist);
    forall i | 0 <= i < |xs| ensures Durations(f, Kept(r))[i] == xs[i] {
      var j := |p.segments| - |xs| + i;
      assert Kept(r)[i] == r.segments[j];
      JointDuration(f, p, r, j);
      CountsDuration(f, p.segments[j].tags, xs[i]);
    }
    assert Durations(f, Kept(r)) == xs;
  }

  lemma WindowIsTotal(c: Context, f: Floats, playlist: string, seconds: seq<real>)
    requires ContextOk(c) && PrintsDigits(f) && PlayText(playlist).segments != []
    requires LastLast(f, PlayText(playlist), Seconds(seconds))
    ensures Window(f, ReadText(playlist)) == Finite(Total(seconds))
  {
    hide PlayText, ReadText, LastLast, Window, Sum;
    WindowIsSum(c, f, playlist, Seconds(seconds));
    SumIsTotal(Seconds(seconds), seconds);
  }

  /** The served text is the upstream header, the hint, the number and the last segments, and the hint is there
      exactly when the last min(n, 8) upstream segments last four seconds or more. It prints half of what they
      last, or 18. */
  lemma StartHintExactly(c: Context, f: Floats, playlist: string, seconds: seq<real>)
    requires ContextOk(c) && PrintsDigits(f) && PlayText(playlist).segments != []
    requires LastLast(f, PlayText(playlist), Seconds(seconds))
    ensures var r, lines := ReadText(playlist), Lines(ServedText(c, f, playlist));
            var header := Opened(RewriteTags(c, Resource, r.header));
            lines == header + Hint(f, Total(seconds)) + [SequenceLine(r.sequence + Dropped(|r.segments|))]
                     + Flatten(BlocksOf(ServedSegments(c, r)))
  {
    hide Lines, Served, ServedReading, OkReading, Read, Play, Tidy, SequenceLine, Flatten, BlocksOf, Window, Hint,
         LastLast, ServedSegments, Opened, Joint, RewriteTags, Total;
    var r := ReadText(playlist);
    BothRead(c, f, playlist);
    ServedIsTidy(c, f, r);
    TidyLines(Served(c, f, r));
    WindowIsTotal(c, f, playlist, seconds);
    ServedWithHint(c, f, r, Total(seconds));
  }

  /** The upstream header comes first, with the mark of a playlist in front if it had none. */
  lemma HeaderComesFirst(c: Context, f: Floats, playlist: string)
    requires ContextOk(c) && PrintsDigits(f) && PlayText(playlist).segments != []
    ensures var lines, header := Lines(ServedText(c, f, playlist)), RewriteTags(c, Resource, ReadText(playlist).header);
            if "#EXTM3U" in header then header <= lines else ["#EXTM3U"] + header <= lines
  {
    hide Lines, Served, ServedReading, OkReading, Read, Play, Tidy, SequenceLine, Flatten, BlocksOf, Window, Joint,
         ServedSegments, RewriteTags, StartLines;
    var r := ReadText(playlist);
    BothRead(c, f, playlist);
    ServedIsTidy(c, f, r);
    TidyLines(Served(c, f, r));
    OpenedComesFirst(c, f, r);
  }

  lemma OpenedComesFirst(c: Context, f: Floats, r: Reading)
    ensures Opened(RewriteTags(c, Resource, r.header)) <= Served(c, f, r)
  {
    hide SequenceLine, Flatten, Opened, RewriteTags, StartLines;
  }

  lemma ServedWithHint(c: Context, f: Floats, r: Reading, total: real)
    requires Window(f, r) == Finite(total)
    ensures Served(c, f, r) == Opened(RewriteTags(c, Resource, r.header)) + Hint(f, total)
                               + [SequenceLine(r.sequence + Dropped(|r.segments|))]
                               + Flatten(BlocksOf(ServedSegments(c, r)))
  {
    hide Served, SequenceLine, Flatten, BlocksOf, Window, Hint, ServedSegments, Opened, RewriteTags, StartLines;
    ServedParts(c, f, r);
    HintIs(f, total);
  }

  const HINT := "#EXT-X-START:TIME-OFFSET=-"

  lemma HintStarts(f: Floats, total: real)
    ensures total >= 4.0 <==> exists line | line in Hint(f, total) :: StartsWith(line, HINT)
  {
    if total >= 4.0 { assert Hint(f, total)[0] in Hint(f, total); }
  }

  lemma HintIsOnly(c: Context, f: Floats, lines: seq<string>, line: string)
    requires ContextOk(c) && PrintsDigits(f) && OkReading(Read(lines)) && line in Served(c, f, Read(lines))
    requires StartsWith(line, HINT) && forall raw | raw in lines :: !StartsWith(TrimEnd(raw), HINT)
    ensures line in StartLines(f, Window(f, Read(lines)))
  {
    hide Served, OkReading, HlsTrust.Mentions, Read, StartLines, Window, RewriteTag, RewriteUriLine, SequenceLine;
    var r := Read(lines);
    var before := HlsTrust.ServedLine(c, f, r, line);
    OtherLinesAreNoHint(r.sequence + Dropped(|r.segments|));
    if !HlsTrust.Added(f, r, line) {
      HlsTrust.MentionedLines(lines, before);
      NoHintMade(c, before);
    }
  }

  lemma OtherLinesAreNoHint(n: int)
    ensures !StartsWith(EXTM3U, HINT) && !StartsWith(SequenceLine(n), HINT)
  {
    assert |EXTM3U| < |HINT| && MEDIA_SEQUENCE[7] == 'M' && HINT[7] == 'S' && SequenceLine(n)[7] == MEDIA_SEQUENCE[7];
  }

  lemma NoHintMade(c: Context, before: string)
    requires ContextOk(c) && TrimEnd(before) == before && before != "" && !StartsWith(before, HINT)
    ensures !StartsWith(RewriteLine(c, Resource, before), HINT)
  {
    hide RewriteTag, RewriteUriLine;
    assert '"' !in HINT && HINT[0] == '#';
    NotBlank(before);
    OneCharPrefix(before, '#');
    if StartsWith(before, "#") {
      RewrittenTagName(c, Resource, before, HINT);
    } else {
      HlsTrust.RewrittenUriFacts(c, Resource, before);
    }
  }

  /** So when the upstream playlist has no start hint of its own, the served one has one exactly when its
      segments last four seconds or more. */
  lemma HintThereExactly(c: Context, f: Floats, playlist: string, seconds: seq<real>)
    requires ContextOk(c) && PrintsDigits(f) && PlayText(playlist).segments != []
    requires LastLast(f, PlayText(playlist), Seconds(seconds))
    requires forall raw | raw in Lines(playlist) :: !StartsWith(TrimEnd(raw), "#EXT-X-START:TIME-OFFSET=-")
    ensures (exists line | line in Lines(ServedText(c, f, playlist)) ::
               StartsWith(line, "#EXT-X-START:TIME-OFFSET=-"))
       <==> Total(seconds) >= 4.0
  {
    hide Lines, Served, ServedReading, OkReading, Read, Play, Tidy, SequenceLine, Flatten, BlocksOf, Window, Hint,
         LastLast, ServedSegments, Opened, StartLines;
    var r := ReadText(playlist);
    BothRead(c, f, playlist);
    ServedIsTidy(c, f, r);
    TidyLines(Served(c, f, r));
    StartHintExactly(c, f, playlist, seconds);
    WindowIsTotal(c, f, playlist, seconds);
    HintIs(f, Total(seconds));
    HintStarts(f, Total(seconds));
    if line :| line in Lines(ServedText(c, f, playlist)) && StartsWith(line, HINT) {
      HintIsOnly(c, f, Lines(playlist), line);
    }
  }

  // ---------------------------------------------------------------------------
  // A playlist on demand keeps everything but its URIs
  // ---------------------------------------------------------------------------

  function RewriteSegments(c: Context, kind: Kind, segments: seq<Segment>): (r: seq<Segment>)
    ensures |r| == |segments| && forall i | 0 <= i < |segments| :: r[i] == RewriteSegment(c, kind, segments[i])
  {
    seq(|segments|, i requires 0 <= i < |segments| => RewriteSegment(c, kind, segments[i]))
  }

  function RewritePlaying(c: Context, kind: Kind, p: Playing): Playing {
    Playing(RewriteSegments(c, kind, p.segments), RewriteTags(c, kind, p.pending), RewriteTags(c, kind, p.others),
            p.sequence)
  }

  lemma QuoteIsNoNumber(line: string)
    requires StartsWith(line, MEDIA_SEQUENCE) && '"' in line
    ensures NumberIn(line) == None
  {
    hide DigitsValue;
    NamesHaveNoQuote();
    var tail := line[|MEDIA_SEQUENCE|..];
    assert line == MEDIA_SEQUENCE + tail;
    assert '"' in tail;
    QuoteSurvivesTrim(tail);
  }

  lemma QuoteSurvivesTrim(s: string)
    requires '"' in s
    ensures '"' in Trim(s)
  {
    var i := TrimIsMiddle(s);
    var k :| 0 <= k < |s| && s[k] == '"';
    assert i <= k < i + |Trim(s)|;
    assert Trim(s)[k - i] == s[k];
  }

  lemma RewrittenNumber(c: Context, kind: Kind, line: string)
    requires TrimEnd(line) == line && StartsWith(line, MEDIA_SEQUENCE)
    ensures StartsWith(RewriteTag(c, kind, line), MEDIA_SEQUENCE)
    ensures NumberIn(RewriteTag(c, kind, line)) == NumberIn(line)
  {
    hide RewriteTag, NumberIn;
    NamesHaveNoQuote();
    RewrittenTagName(c, kind, line, MEDIA_SEQUENCE);
    RewrittenTagText(c, kind, line);
    if RewriteTag(c, kind, line) != line {
      QuoteIsNoNumber(line);
      QuoteIsNoNumber(RewriteTag(c, kind, line));
    }
  }

  lemma PlayedTag(c: Context, kind: Kind, p: Playing, line: string)
    requires StartsWith(line, "#") && TrimEnd(line) == line
    ensures PlayLine(RewritePlaying(c, kind, p), RewriteTag(c, kind, line))
            == RewritePlaying(c, kind, PlayLine(p, line))
  {
    hide RewriteTag, MediaSegmentTag, NumberIn;
    var after := RewriteTag(c, kind, line);
    NamesHaveNoQuote();
    RewrittenTagText(c, kind, line);
    RewrittenTagName(c, kind, line, "#");
    RewrittenTagName(c, kind, line, MEDIA_SEQUENCE);
    RewrittenMediaTag(c, kind, line);
    OneCharPrefix(line, '#');
    OneCharPrefix(after, '#');
    if StartsWith(line, MEDIA_SEQUENCE) {
      RewrittenNumber(c, kind, line);
    } else {
      RewriteSnoc(c, kind, p.pending, line);
      RewriteSnoc(c, kind, p.others, line);
    }
  }

  lemma PlayUriLine(p: Playing, line: string)
    requires UriLine(line)
    ensures PlayLine(p, line) == p.(segments := p.segments + [Segment(p.pending, line)], pending := [])
  {
    hide MediaSegmentTag;
    OneCharPrefix(line, '#');
    NotATag(line);
    if MediaSegmentTag(line) { SegmentTagIsTag(line); }
  }

  lemma PlayedUri(c: Context, kind: Kind, p: Playing, line: string)
    requires ContextOk(c) && UriLine(line)
    ensures PlayLine(RewritePlaying(c, kind, p), RewriteUriLine(c, kind, line))
            == RewritePlaying(c, kind, PlayLine(p, line))
  {
    hide RewriteUriLine, PlayLine;
    RewrittenUriLine(c, kind, line);
    PlayUriLine(p, line);
    PlayUriLine(RewritePlaying(c, kind, p), RewriteUriLine(c, kind, line));
    assert RewriteSegments(c, kind, p.segments + [Segment(p.pending, line)])
        == RewriteSegments(c, kind, p.segments) + [RewriteSegment(c, kind, Segment(p.pending, line))];
    assert RewriteTags(c, kind, []) == [];
  }

  lemma PlayedLine(c: Context, kind: Kind, p: Playing, raw: string)
    requires ContextOk(c) && '\n' !in raw
    ensures PlayLine(RewritePlaying(c, kind, p), RewriteLine(c, kind, raw)) == RewritePlaying(c, kind, PlayLine(p, raw))
  {
    hide RewriteTag, RewriteUriLine, RewritePlaying, MediaSegmentTag, NumberIn;
    var line := TrimEnd(raw);
    NotBlank(raw);
    assert PlayLine(p, line) == PlayLine(p, raw);
    if line != "" {
      OneCharPrefix(line, '#');
      TrimEndShape(raw);
      assert forall ch | ch in line :: ch in raw;
      if StartsWith(line, "#") {
        PlayedTag(c, kind, p, line);
      } else {
        PlayedUri(c, kind, p, line);
      }
    }
  }

  lemma {:induction false} PlayedLines(c: Context, lines: seq<string>)
    requires ContextOk(c) && forall line | line in lines :: '\n' !in line
    ensures Play(VodLines(c, lines)) == RewritePlaying(c, VodResource, Play(lines))
  {
    hide RewriteLine, RewritePlaying, PlayLine;
    if lines == [] {
      NothingPlayed(c);
    } else {
      var front, last := lines[..|lines| - 1], lines[|lines| - 1];
      PlayedLines(c, front);
      assert VodLines(c, lines)[..|front|] == VodLines(c, front);
      PlayedLine(c, VodResource, Play(front), last);
    }
  }

  lemma NothingPlayed(c: Context)
    ensures VodLines(c, []) == [] && RewritePlaying(c, VodResource, SILENT) == SILENT
  {
    assert RewriteTags(c, VodResource, []) == [] && RewriteSegments(c, VodResource, []) == [];
  }

  lemma ResplitPlay(lines: seq<string>)
    requires Clean(lines)
    ensures Play(Resplit(lines)) == Play(lines)
  {
    hide MediaSegmentTag;
    ResplitClean(lines);
    if lines != [] && Resplit(lines) != lines { BlankPlays(Play(lines[..|lines| - 1])); }
  }

  lemma BlankPlays(p: Playing)
    ensures PlayLine(p, "") == p
  {
  }

  /** A player of the rewritten VOD playlist reads the same segments, tags and sequence number as upstream,
      every line rewritten in its place and nothing else. */
  lemma VodKeepsEverything(c: Context, playlist: string)
    requires ContextOk(c)
    ensures PlayText(Unlines(VodLines(c, Lines(playlist)))) == RewritePlaying(c, VodResource, PlayText(playlist))
  {
    hide RewriteLine, RewritePlaying, PlayLine;
    var lines := Lines(playlist);
    LinesHaveNoFeed(playlist);
    forall line | line in VodLines(c, lines) ensures CleanLine(line) {
      var i :| 0 <= i < |lines| && line == RewriteLine(c, VodResource, lines[i]);
      assert lines[i] in lines;
      RewrittenLineIsClean(c, VodResource, lines[i]);
    }
    LinesOfUnlines(VodLines(c, lines));
    ResplitPlay(VodLines(c, lines));
    PlayedLines(c, lines);
  }

  // ---------------------------------------------------------------------------
  // Where the window loses or misplaces tags
  // ---------------------------------------------------------------------------

  /** `tags` and then nine URIs. */
  predicate NineSegments(tags: seq<string>, uris: seq<string>) {
    && |uris| == 9 && (forall uri | uri in uris :: UriLine(uri))
    && forall tag | tag in tags :: TagLine(tag) && MediaSegmentTag(tag)
  }

  lemma {:induction false} PlayTags(tags: seq<string>)
    requires forall tag | tag in tags :: TagLine(tag) && MediaSegmentTag(tag)
    ensures Play(tags) == SILENT.(pending := tags)
  {
    if tags != [] {
      hide MediaSegmentTag;
      var front, last := tags[..|tags| - 1], tags[|tags| - 1];
      assert tags == front + [last] && last in tags && forall tag | tag in front :: tag in tags;
      PlayTags(front);
      OneCharPrefix(last, '#');
    }
  }

  function Plain(tags: seq<string>, uris: seq<string>): (r: seq<Segment>)
    ensures |r| == |uris|
    ensures forall i | 0 <= i < |uris| :: r[i] == Segment(if i == 0 then tags else [], uris[i])
  {
    seq(|uris|, i requires 0 <= i < |uris| => Segment(if i == 0 then tags else [], uris[i]))
  }

  lemma {:induction false} PlayUris(tags: seq<string>, uris: seq<string>)
    requires (forall tag | tag in tags :: TagLine(tag) && MediaSegmentTag(tag))
            && forall uri | uri in uris :: UriLine(uri)
    ensures Play(tags + uris) == Playing(Plain(tags, uris), if uris == [] then tags else [], [], Some(0))
  {
    if uris == [] {
      assert tags + uris == tags && Plain(tags, uris) == [];
      PlayTags(tags);
    } else {
      hide PlayLine, TagLine, UriLine, MediaSegmentTag;
      var front, last := uris[..|uris| - 1], uris[|uris| - 1];
      assert uris == front + [last] && last in uris && forall uri | uri in front :: uri in uris;
      PlayUris(tags, front);
      assert tags + uris == tags + front + [last];
      PlaySnoc(SILENT, tags + front, last);
      PlayUriLine(Play(tags + front), last);
      assert Plain(tags, uris) == Plain(tags, front) + [Segment(if front == [] then tags else [], last)];
    }
  }

  lemma NineRead(tags: seq<string>, uris: seq<string>)
    requires NineSegments(tags, uris)
    ensures PlayText(Unlines(tags + uris)) == Playing(Plain(tags, uris), [], [], Some(0))
  {
    hide MediaSegmentTag, UriLine;
    assert Tidy(tags + uris) by { NineAreTidy(tags, uris); }
    TidyLines(tags + uris);
    PlayUris(tags, uris);
  }

  lemma NineAreTidy(tags: seq<string>, uris: seq<string>)
    requires NineSegments(tags, uris)
    ensures Tidy(tags + uris)
  {
    hide MediaSegmentTag;
    assert TagLines(tags);
    TidyTags(tags);
  }

  lemma RangeIsStray(range: string)
    requires StartsWith(range, BYTERANGE)
    ensures !SegmentTag(range) && MediaSegmentTag(range)
  {
    assert |BYTERANGE| > 8 && BYTERANGE[4] == '-' && BYTERANGE[7] == 'B';
    assert range[4] == BYTERANGE[4] && range[7] == BYTERANGE[7];
    NotPrefix(EXTINF, range, 4);
    NotPrefix("#EXT-X-KEY", range, 7);
    NotPrefix("#EXT-X-MAP", range, 7);
    NotPrefix("#EXT-X-PROGRAM-DATE-TIME", range, 7);
    NotPrefix("#EXT-X-DISCONTINUITY", range, 7);
  }

  lemma StrayOnly(tags: seq<string>, tag: string)
    requires SegmentTags(tags) == [] && Stray(tags) == [tag]
    ensures tags == [tag]
  {
    hide SegmentTag;
    SelectNone(tags, SegmentTag);
    SelectAll(tags, t => !SegmentTag(t));
  }

  lemma OneStray(range: string)
    requires !SegmentTag(range)
    ensures Stray([range]) == [range]
  {
    SelectAll([range], t => !SegmentTag(t));
  }

  /** A stray tag of the first segment, with nothing of its own in the first that is served. */
  lemma StrayServed(c: Context, f: Floats, r: Reading, upstream: Playing, served: Playing, tag: string)
    requires OkReading(r) && |r.segments| == 9 && Joint(upstream, r) && Joint(served, ServedReading(c, f, r))
    requires upstream.segments[0].tags == [tag] && upstream.segments[1].tags == [] && !SegmentTag(tag)
    ensures served.segments != [] && served.segments[0].tags == [RewriteTag(c, Resource, tag)]
  {
    hide MediaSegmentTag, SegmentTag, Select, RewriteTag, OkReading, SameNumber, ServedReading;
    FirstServed(c, f, r, served);
    assert SameSegment(upstream.segments[1], r.segments[1]);
    OneStray(tag);
    SelectAll([], SegmentTag);
    assert RewriteTags(c, Resource, []) == [] && RewriteTags(c, Resource, [tag]) == [RewriteTag(c, Resource, tag)];
    NothingStray();
    assert [RewriteTag(c, Resource, tag)] + [] == [RewriteTag(c, Resource, tag)];
    StrayOnly(served.segments[0].tags, RewriteTag(c, Resource, tag));
  }

  lemma NothingStray()
    ensures Stray([]) == [] && SegmentTags([]) == []
  {
  }

  /** Of nine segments behind a byte range, the first is dropped and its byte range is served ahead of the
      second, which had none. */
  lemma ByteRangeMoves(c: Context, f: Floats, range: string, uris: seq<string>)
    requires ContextOk(c) && PrintsDigits(f) && NineSegments([range], uris) && StartsWith(range, BYTERANGE)
    ensures var playlist := Unlines([range] + uris);
            var upstream, served := PlayText(playlist).segments, PlayText(ServedText(c, f, playlist)).segments;
      && |upstream| == 9 && upstream[1] == Segment([], uris[1]) && served != []
      && served[0] == Segment([RewriteTag(c, Resource, range)], RewriteUriLine(c, Resource, uris[1]))
  {
    hide PlayText, ServedText, ReadText, ServedReading, OkReading, RewriteTag, RewriteUriLine, MediaSegmentTag, Joint,
         Unlines, SegmentTag, UriLine, TagLine;
    var playlist := Unlines([range] + uris);
    NineRead([range], uris);
    KeepsLastSegments(c, f, playlist);
    RangeIsStray(range);
    BothRead(c, f, playlist);
    StrayServed(c, f, ReadText(playlist), PlayText(playlist), PlayText(ServedText(c, f, playlist)), range);
  }

  /** Of nine segments behind a key, all nine are encrypted with it, and what is served names none. */
  lemma KeyIsLost(c: Context, f: Floats, key: string, uris: seq<string>)
    requires ContextOk(c) && PrintsDigits(f) && NineSegments([key], uris) && StartsWith(key, KEY)
    ensures var playlist := Unlines([key] + uris);
            var upstream, served := PlayText(playlist).segments, PlayText(ServedText(c, f, playlist)).segments;
      && |upstream| == 9 && InEffect(upstream, 1, KEY) == Some(key)
      && served != [] && InEffect(served, 0, KEY) == None
  {
    hide PlayText, ServedText, RewriteTag, MediaSegmentTag, Unlines, UriLine, TagLine;
    var playlist := Unlines([key] + uris);
    NineRead([key], uris);
    var upstream, served := PlayText(playlist).segments, PlayText(ServedText(c, f, playlist)).segments;
    ServedCount(c, f, playlist);
    assert [key][..0] == [];
    assert LastNamed(upstream[0].tags, KEY) == Some(key) && LastNamed(upstream[1].tags, KEY) == None;
    ServedCarries(c, f, playlist, 0, KEY);
  }
}
