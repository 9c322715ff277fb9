/** The rolling branch of the media playlist rewriter of src/live.rs: how it sorts the lines of a live
    playlist into header and segment blocks, and what it serves of them. What a player makes of the same
    lines is in `HlsPlayer`. */
module HlsMedia {
  import opened Text
  import opened Decimal
  import opened HlsLines
  import opened HlsUri

  // ---------------------------------------------------------------------------
  // Numbers
  // ---------------------------------------------------------------------------

  const I64_MIN := -0x8000_0000_0000_0000
  const I64_MAX := 0x7fff_ffff_ffff_ffff

  /** i64 arithmetic of a release build. */
  function WrapI64(n: int): (r: int)
    ensures I64_MIN <= r <= I64_MAX
    ensures r == n <==> I64_MIN <= n <= I64_MAX
  {
    (n - I64_MIN) % 0x1_0000_0000_0000_0000 + I64_MIN
  }

  /** f64, with exact instead of rounded finite values. */
  datatype F64 = NaN | PosInf | NegInf | Finite(value: real)

  function Plus(a: F64, b: F64): F64 {
    match (a, b)
    case (Finite(x), Finite(y)) => Finite(x + y)
    case (NaN, _) => NaN
    case (_, NaN) => NaN
    case (PosInf, NegInf) => NaN
    case (NegInf, PosInf) => NaN
    case (Finite(_), y) => y
    case (x, _) => x
  }

  function Half(a: F64): F64 {
    if a.Finite? then Finite(a.value / 2.0) else a
  }

  predicate Le(a: F64, b: F64) {
    match (a, b)
    case (Finite(x), Finite(y)) => x <= y
    case (NaN, _) => false
    case (_, NaN) => false
    case (NegInf, _) => true
    case (_, PosInf) => true
    case (_, _) => false
  }

  /** `f64::min`, which ignores a NaN. */
  function Least(a: F64, b: F64): F64 {
    if a.NaN? then b else if b.NaN? then a else if Le(a, b) then a else b
  }

  /** `parse::<f64>` and `{:.3}`. */
  datatype Floats = Floats(parse: string -> Option<F64>, print3: real -> string)

  ghost predicate PrintsDigits(f: Floats) {
    forall x, ch | ch in f.print3(x) :: IsAsciiDigit(ch) || ch == '.'
  }

  // ---------------------------------------------------------------------------
  // How the rewriter reads a playlist
  // ---------------------------------------------------------------------------

  /** A media segment: its URI line and the tags filed with it. */
  datatype Segment = Segment(tags: seq<string>, uri: string)

  /** What has been read: tags filed with the playlist, segments, tags waiting for the next URI, and the
      media sequence number of the first segment. */
  datatype Reading = Reading(header: seq<string>, segments: seq<Segment>, pending: seq<string>, sequence: int)

  const NOTHING := Reading([], [], [], 0)

  const MEDIA_SEQUENCE := "#EXT-X-MEDIA-SEQUENCE:"

  /** Tags that the rewriter takes to belong to a segment wherever they stand; any other tag ahead of the
      first segment it files with the playlist. */
  predicate SegmentTag(line: string) {
    StartsWith(line, EXTINF) || StartsWith(line, "#EXT-X-KEY") || StartsWith(line, "#EXT-X-MAP")
    || StartsWith(line, "#EXT-X-PROGRAM-DATE-TIME") || StartsWith(line, "#EXT-X-DISCONTINUITY")
  }

  /** The number of a media sequence tag; text that is no i64 counts as 0. */
  function SequenceOf(line: string): int
    requires StartsWith(line, MEDIA_SEQUENCE)
  {
    match ParseInt(Trim(line[|MEDIA_SEQUENCE|..]), I64_MIN, I64_MAX)
    case Some(n) => n
    case None => 0
  }

  function ReadLine(r: Reading, raw: string): Reading {
    var line := TrimEnd(raw);
    if Trim(line) == "" then r
    else if StartsWith(line, MEDIA_SEQUENCE) then r.(sequence := SequenceOf(line))
    else if StartsWith(line, ENDLIST) then r
    else if StartsWith(line, "#") then
      if r.segments == [] && !SegmentTag(line) then r.(header := r.header + [line])
          else r.(pending := r.pending + [line])
    else r.(segments := r.segments + [Segment(r.pending, line)], pending := [])
  }

  function ReadFrom(r: Reading, lines: seq<string>): Reading {
    if lines == [] then r else ReadLine(ReadFrom(r, lines[..|lines| - 1]), lines[|lines| - 1])
  }

  function Read(lines: seq<string>): Reading { ReadFrom(NOTHING, lines) }

  const EXTINF_COLON := "#EXTINF:"

  function ExtinfSeconds(f: Floats, line: string): F64
    requires StartsWith(line, EXTINF_COLON)
  {
    var value := line[|EXTINF_COLON|..];
    match f.parse(Trim(value[..IndexOfChar(value, ',')]))
    case Some(x) => x
    case None => Finite(0.0)
  }

  /** The last EXTINF of a segment says how long it is. */
  function Duration(f: Floats, tags: seq<string>): F64 {
    if tags == [] then Finite(0.0)
    else
      var last := tags[|tags| - 1];
      if StartsWith(last, EXTINF_COLON) then ExtinfSeconds(f, last) else Duration(f, tags[..|tags| - 1])
  }

  function Sum(xs: seq<F64>): F64 {
    if xs == [] then Finite(0.0) else Plus(Sum(xs[..|xs| - 1]), xs[|xs| - 1])
  }

  // ---------------------------------------------------------------------------
  // What is served of a rolling playlist
  // ---------------------------------------------------------------------------

  const EDGE_SEGMENT_COUNT := 8
  const START_OFFSET := 18.0
  const START_OFFSET_MIN := 2.0
  const EXTM3U := "#EXTM3U"
  const START_TAG := "#EXT-X-START:TIME-OFFSET=-"
  const PRECISE_NO := ",PRECISE=NO"

  function RewriteTags(c: Context, kind: Kind, tags: seq<string>): (r: seq<string>)
    ensures |r| == |tags| && forall i | 0 <= i < |tags| :: r[i] == RewriteTag(c, kind, tags[i])
  {
    seq(|tags|, i requires 0 <= i < |tags| => RewriteTag(c, kind, tags[i]))
  }

  function RewriteSegment(c: Context, kind: Kind, s: Segment): Segment {
    Segment(RewriteTags(c, kind, s.tags), RewriteUriLine(c, kind, s.uri))
  }

  function Block(s: Segment): seq<string> { s.tags + [s.uri] }

  function Blocks(c: Context, segments: seq<Segment>): (r: seq<seq<string>>)
    ensures |r| == |segments|
            && forall i | 0 <= i < |segments| :: r[i] == Block(RewriteSegment(c, Resource, segments[i]))
  {
    seq(|segments|, i requires 0 <= i < |segments| => Block(RewriteSegment(c, Resource, segments[i])))
  }

  function Durations(f: Floats, segments: seq<Segment>): (r: seq<F64>)
    ensures |r| == |segments| && forall i | 0 <= i < |segments| :: r[i] == Duration(f, segments[i].tags)
  {
    seq(|segments|, i requires 0 <= i < |segments| => Duration(f, segments[i].tags))
  }

  function Flatten(blocks: seq<seq<string>>): seq<string> {
    if blocks == [] then [] else Flatten(blocks[..|blocks| - 1]) + blocks[|blocks| - 1]
  }

  function Opened(header: seq<string>): seq<string> {
    if EXTM3U in header then header else [EXTM3U] + header
  }

  function Dropped(n: nat): nat { if n > EDGE_SEGMENT_COUNT then n - EDGE_SEGMENT_COUNT else 0 }

  /** Seconds behind the live edge at which players are told to start, if they are. */
  function StartOffset(window: F64): (r: Option<real>)
  {
    var offset := Least(Finite(START_OFFSET), Half(window));
    if offset.Finite? && offset.value >= START_OFFSET_MIN then Some(offset.value) else None
  }

  function StartLines(f: Floats, window: F64): seq<string> {
    match StartOffset(window)
    case Some(x) => [START_TAG + f.print3(x) + PRECISE_NO]
    case None => []
  }

  function Kept(r: Reading): seq<Segment> { r.segments[Dropped(|r.segments|)..] }

  function SequenceLine(n: int): string { MEDIA_SEQUENCE + IntToString(WrapI64(n)) }

  /** Header, start hint, renumbering and the last blocks. */
  function Assembled(f: Floats, header: seq<string>, blocks: seq<seq<string>>, durations: seq<F64>,
      sequence: int): seq<string>
    requires |blocks| == |durations|
  {
    var dropped := Dropped(|blocks|);
    Opened(header) + StartLines(f, Sum(durations[dropped..]))
    + [SequenceLine(sequence + dropped)] + Flatten(blocks[dropped..])
  }

  function Served(c: Context, f: Floats, r: Reading): seq<string> {
    Assembled(f, RewriteTags(c, Resource, r.header), Blocks(c, r.segments), Durations(f, r.segments), r.sequence)
  }

  /** The loop variables after the lines that read as `r`. */
  predicate Mirrors(c: Context, f: Floats, r: Reading, header: seq<string>, pendingBlock: seq<string>,
      pendingDuration: F64,
                    blocks: seq<seq<string>>, durations: seq<F64>, sequence: int, sawSegment: bool)
  {
    && header == RewriteTags(c, Resource, r.header)
    && pendingBlock == RewriteTags(c, Resource, r.pending) && pendingDuration == Duration(f, r.pending)
    && blocks == Blocks(c, r.segments) && durations == Durations(f, r.segments)
    && sequence == r.sequence && (sawSegment <==> r.segments != [])
  }

  lemma TagRead(c: Context, f: Floats, tags: seq<string>, line: string)
    ensures RewriteTags(c, Resource, tags + [line]) == RewriteTags(c, Resource, tags) + [RewriteTag(c, Resource, line)]
    ensures Duration(f, tags + [line])
         == if StartsWith(line, EXTINF_COLON) then ExtinfSeconds(f, line) else Duration(f, tags)
  {
    assert (tags + [line])[..|tags|] == tags;
  }

  lemma SegmentRead(c: Context, f: Floats, segments: seq<Segment>, tags: seq<string>, uri: string)
    ensures Blocks(c, segments + [Segment(tags, uri)])
         == Blocks(c, segments) + [RewriteTags(c, Resource, tags) + [RewriteUriLine(c, Resource, uri)]]
    ensures Durations(f, segments + [Segment(tags, uri)]) == Durations(f, segments) + [Duration(f, tags)]
  {
  }

  lemma ExtinfIsTag(line: string)
    ensures StartsWith(line, EXTINF_COLON) ==> SegmentTag(line)
  {
    assert EXTINF_COLON[..|EXTINF|] == EXTINF;
    if StartsWith(line, EXTINF_COLON) {
      assert line[..|EXTINF_COLON|][..|EXTINF|] == line[..|EXTINF|];
    }
  }

  method Extended(start: seq<string>, blocks: seq<seq<string>>) returns (rewritten: seq<string>)
    ensures rewritten == start + Flatten(blocks)
  {
    rewritten := start;
    for i := 0 to |blocks|
      invariant rewritten == start + Flatten(blocks[..i])
    {
      assert blocks[..i + 1][..i] == blocks[..i];
      rewritten := rewritten + blocks[i];
    }
    assert blocks[..|blocks|] == blocks;
  }

  method Assemble(f: Floats, ownHeader: seq<string>, blocks: seq<seq<string>>, durations: seq<F64>, sequence: int)
      returns (rewritten: seq<string>)
    requires |blocks| == |durations|
    ensures rewritten == Assembled(f, ownHeader, blocks, durations, sequence)
  {
    var header := ownHeader;
    if EXTM3U !in header {
      header := [EXTM3U] + header;
    }
    var dropped := Dropped(|blocks|);
    var start := StartLines(f, Sum(durations[dropped..]));
    header := header + start;
    rewritten := header + [SequenceLine(sequence + dropped)];
    assert rewritten == Opened(ownHeader) + start + [SequenceLine(sequence + dropped)];
    rewritten := Extended(rewritten, blocks[dropped..]);
  }

  /** The rolling branch of `rewrite_live_hls_media_playlist`. */
  method RewriteRolling(c: Context, f: Floats, lines: seq<string>) returns (text: string)
    ensures text == if Read(lines).segments == [] then Unlines(lines) else Unlines(Served(c, f, Read(lines)))
  {
    var header: seq<string>, pendingBlock: seq<string>, pendingDuration := [], [], Finite(0.0);
    var segmentBlocks: seq<seq<string>>, segmentDurations: seq<F64> := [], [];
    var originalMediaSequence, sawSegment := 0, false;
    for i := 0 to |lines|
      invariant Mirrors(c, f, Read(lines[..i]), header, pendingBlock, pendingDuration, segmentBlocks, segmentDurations,
                        originalMediaSequence, sawSegment)
    {
      ghost var r := Read(lines[..i]);
      assert lines[..i + 1][..i] == lines[..i];
      var line := TrimEnd(lines[i]);
      if Trim(line) == "" {
        continue;
      }
      if StartsWith(line, MEDIA_SEQUENCE) {
        originalMediaSequence := SequenceOf(line);
        continue;
      }
      if StartsWith(line, ENDLIST) {
        continue;
      }
      if StartsWith(line, "#") {
        TagRead(c, f, r.header, line);
        TagRead(c, f, r.pending, line);
        ExtinfIsTag(line);
        if StartsWith(line, EXTINF_COLON) {
          pendingDuration := ExtinfSeconds(f, line);
        }
        if !sawSegment && !SegmentTag(line) {
          header := header + [RewriteTag(c, Resource, line)];
        } else {
          pendingBlock := pendingBlock + [RewriteTag(c, Resource, line)];
        }
        continue;
      }
      SegmentRead(c, f, r.segments, r.pending, line);
      sawSegment := true;
      pendingBlock := pendingBlock + [RewriteUriLine(c, Resource, line)];
      segmentBlocks, pendingBlock := segmentBlocks + [pendingBlock], [];
      segmentDurations, pendingDuration := segmentDurations + [pendingDuration], Finite(0.0);
    }
    assert lines[..|lines|] == lines;
    if segmentBlocks == [] {
      return Unlines(lines);
    }
    var rewritten := Assemble(f, header, segmentBlocks, segmentDurations, originalMediaSequence);
    return Unlines(rewritten);
  }
}
