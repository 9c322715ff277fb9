/** The master playlist branch of src/live.rs: the quality cap for trusted streams, every URI
    rewritten, and CODECS dropped where only a video codec is declared. */
module HlsMaster {
  import opened Text
  import opened HlsLines
  import opened HlsUri
  import opened HlsAttributes
  import opened HlsMedia
  import opened HlsWindow
  import opened HlsVod
  import opened HlsTrust
  import opened HlsCap
  import opened HlsCodecs
  import SignedUrl

  const AUDIO_CODECS := ["mp4a", "ac-3", "ec-3", "opus", "flac", "alac", "dts"]

  /** `strip_video_only_stream_inf_codecs` */
  function StripVideoOnlyCodecs(line: string): string {
    var lower := ToLower(line);
    if !IsStreamInf(line) then line
    else if !Contains(lower, "codecs=") then line
    else if exists codec | codec in AUDIO_CODECS :: Contains(lower, codec) then line
    else RemoveCodecs(line)
  }

  const MEDIA_COLON := "#EXT-X-MEDIA:"
  const I_FRAME_COLON := "#EXT-X-I-FRAME-STREAM-INF:"

  /** Renditions and I-frame streams are playlists, anything else a tag names is a resource. */
  function KindOfTag(line: string): Kind {
    if StartsWith(line, MEDIA_COLON) || StartsWith(line, I_FRAME_COLON) then Playlist else MasterResource
  }

  function RewriteMasterTag(c: Context, line: string): string {
    StripVideoOnlyCodecs(RewriteTag(c, KindOfTag(line), line))
  }

  function RewriteMasterLine(c: Context, raw: string): string {
    var line := TrimEnd(raw);
    if Trim(line) == "" then line
    else if StartsWith(line, "#") then RewriteMasterTag(c, line)
    else RewriteUriLine(c, Playlist, line)
  }

  function MasterLines(c: Context, lines: seq<string>): (r: seq<string>)
    ensures |r| == |lines| && forall i | 0 <= i < |lines| :: r[i] == RewriteMasterLine(c, lines[i])
  {
    seq(|lines|, i requires 0 <= i < |lines| => RewriteMasterLine(c, lines[i]))
  }

  /** The lines that are rewritten: capped when the media pass through this server. */
  ghost function Offered(c: Context, lines: seq<string>): seq<string> {
    if c.secret.Some? && !c.directSegments then Capped(lines) else lines
  }

  /** `rewrite_live_hls_master_playlist` */
  method RewriteMaster(c: Context, lines: seq<string>) returns (text: string)
    ensures text == Unlines(MasterLines(c, Offered(c, lines)))
  {
    hide Capped, RewriteMasterTag, RewriteUriLine, Unlines, TrimEnd, TrimStart;
    var offered := lines;
    if c.secret.Some? && !c.directSegments {
      offered := CapTo1080p(lines);
    }
    var rewritten: seq<string> := [];
    for i := 0 to |offered|
      invariant rewritten == MasterLines(c, offered[..i])
    {
      assert MasterLines(c, offered[..i + 1]) == MasterLines(c, offered[..i]) + [RewriteMasterLine(c, offered[i])];
      var line := TrimEnd(offered[i]);
      if Trim(line) == "" {
        rewritten := rewritten + [line];
        continue;
      }
      if StartsWith(line, "#") {
        rewritten := rewritten + [RewriteMasterTag(c, line)];
        continue;
      }
      rewritten := rewritten + [RewriteUriLine(c, Playlist, line)];
    }
    assert offered[..|offered|] == offered;
    text := Unlines(rewritten);
  }

  // ---------------------------------------------------------------------------
  // What stripping keeps of a variant
  // ---------------------------------------------------------------------------

  /** Stripping leaves everything ahead of the first colon. */
  lemma StripKeepsName(line: string)
    ensures var after := StripVideoOnlyCodecs(line);
      after == line || (IndexOfChar(line, ':') < |line| && IndexOfChar(after, ':') == IndexOfChar(line, ':') < |after|
                        && after[..IndexOfChar(line, ':')] == line[..IndexOfChar(line, ':')])
  {
    hide RemoveCodecs, Attributes, Others, Join;
    RemovedLine(line);
  }

  lemma ColonReached(line: string, i: nat, name: string)
    requires i < |name| && name <= line && line[i] == ':'
    ensures ':' in name
  {
    assert name[i] == line[i];
  }

  lemma NameBeforeColon(line: string, after: string, i: nat, name: string)
    requires i <= |line| && i <= |after| && line[..i] == after[..i] && ':' !in name
    requires i < |line| ==> line[i] == ':'
    requires name <= line
    ensures name <= after
  {
    if i < |name| { ColonReached(line, i, name); }
    assert name == line[..i][..|name|];
  }

  lemma NoColonInName()
    ensures ':' !in STREAM_INF && STREAM_INF != "" && STREAM_INF[0] == '#'
  {
  }

  /** A variant tag stays one. */
  lemma StrippedIsStreamInf(line: string)
    requires STREAM_INF <= line
    ensures STREAM_INF <= StripVideoOnlyCodecs(line)
  {
    hide StripVideoOnlyCodecs;
    StripKeepsName(line);
    NoColonInName();
    if StripVideoOnlyCodecs(line) != line {
      NameBeforeColon(line, StripVideoOnlyCodecs(line), IndexOfChar(line, ':'), STREAM_INF);
    }
  }

  lemma OnlyVariantsAreStripped(line: string)
    ensures !IsStreamInf(line) ==> StripVideoOnlyCodecs(line) == line
  {
  }

  // ---------------------------------------------------------------------------
  // Which of the URIs a rewritten master names a player can fetch
  // ---------------------------------------------------------------------------

  lemma HashIsVariant(line: string)
    requires StartsWith(line, "#") && TrimEnd(line) == line
    ensures IsStreamInf(line) <==> STREAM_INF <= line
  {
    HashStartsTrimmed(line);
  }

  function KindOfLine(raw: string): Kind {
    if StartsWith(TrimEnd(raw), "#") then KindOfTag(TrimEnd(raw)) else Playlist
  }

  lemma VariantTag(c: Context, line: string)
    requires StartsWith(line, "#") && TrimEnd(line) == line && IsStreamInf(line)
    ensures STREAM_INF <= RewriteMasterTag(c, line)
  {
    hide RewriteTag, StripVideoOnlyCodecs, IsStreamInf;
    assert '"' !in STREAM_INF;
    HashIsVariant(line);
    RewrittenTagName(c, KindOfTag(line), line, STREAM_INF);
    StrippedIsStreamInf(RewriteTag(c, KindOfTag(line), line));
  }

  lemma OtherTag(c: Context, line: string)
    requires StartsWith(line, "#") && TrimEnd(line) == line && !IsStreamInf(line)
    ensures RewriteMasterTag(c, line) == RewriteTag(c, KindOfTag(line), line)
  {
    hide RewriteTag, StripVideoOnlyCodecs, IsStreamInf;
    assert '"' !in STREAM_INF && '"' !in "#";
    var after := RewriteTag(c, KindOfTag(line), line);
    RewrittenTagName(c, KindOfTag(line), line, STREAM_INF);
    RewrittenTagName(c, KindOfTag(line), line, "#");
    RewrittenTagText(c, KindOfTag(line), line);
    HashIsVariant(line);
    HashIsVariant(after);
    OnlyVariantsAreStripped(after);
  }

  lemma VariantNamesNothing(line: string)
    requires STREAM_INF <= line
    ensures NamedBy(line) == None
  {
    hide ChildOf;
    NoColonInName();
    assert line[0] == '#';
    assert TrimStart(line) == line;
    PrefixOfTrimmed(line, STREAM_INF);
    TrimCommutes(line);
  }

  /** A player takes from a rewritten line of a master what it would take from a media playlist's line
      rewritten for that kind: codecs are dropped from variants only, which carry no URI of their own. */
  lemma MasterLineNames(c: Context, raw: string)
    ensures NamedBy(RewriteMasterLine(c, raw)) == NamedBy(RewriteLine(c, KindOfLine(raw), raw))
  {
    hide RewriteMasterTag, RewriteTag, RewriteUriLine, IsStreamInf, NamedBy;
    var line := TrimEnd(raw);
    NotBlank(raw);
    if line != "" && StartsWith(line, "#") {
      if IsStreamInf(line) {
        VariantTag(c, line);
        VariantNamesNothing(RewriteMasterTag(c, line));
        VariantRewritten(c, KindOfTag(line), line);
        VariantNamesNothing(RewriteTag(c, KindOfTag(line), line));
      } else {
        OtherTag(c, line);
      }
    }
  }

  lemma VariantRewritten(c: Context, kind: Kind, line: string)
    requires StartsWith(line, "#") && TrimEnd(line) == line && IsStreamInf(line)
    ensures STREAM_INF <= RewriteTag(c, kind, line)
  {
    hide RewriteTag, IsStreamInf;
    VariantName();
    HashIsVariant(line);
    RewrittenTagName(c, kind, line, STREAM_INF);
  }

  /** Variants, renditions and I-frame streams lead to the playlist handler, anything else a tag of a
      trusted master names, such as a key, to the resource handler. */
  lemma MasterLineRoute(c: Context, raw: string)
    requires Trusted(c) && Found(raw) && ResolveUri(c, NamedBy(raw).value).Some?
    requires DirectUrl(c, ResolveUri(c, NamedBy(raw).value).value).None?
    ensures NamedBy(RewriteMasterLine(c, raw)).Some?
    ensures SignedUrl.UriPath(NamedBy(RewriteMasterLine(c, raw)).value)
         == if StartsWith(TrimEnd(raw), "#") && !StartsWith(TrimEnd(raw), "#EXT-X-MEDIA:")
               && !StartsWith(TrimEnd(raw), "#EXT-X-I-FRAME-STREAM-INF:")
            then "/api/live/hls-resource" else "/api/live/hls.m3u8"
  {
    hide NamedBy, RewriteMasterLine, RewriteLine, ResolveUri, DirectUrl, SignedUrl.UriPath;
    MasterLineNames(c, raw);
    RewrittenLineRoute(c, KindOfLine(raw), raw);
  }

  lemma OfferedLines(c: Context, lines: seq<string>)
    ensures forall line | line in Offered(c, lines) :: line in lines
  {
    hide Stays;
    if AnyFits(lines) {
      forall line | line in Capped(lines) ensures line in lines {
        StayingLines(lines, |lines|, line);
      }
    }
  }

  ghost predicate MasterRegular(c: Context, lines: seq<string>) {
    forall raw | raw in lines :: Regular(c, KindOfLine(raw), raw)
  }

  ghost predicate MasterSound(c: Context, lines: seq<string>)
    requires c.secret.Some?
  {
    forall raw | raw in lines :: Sound(c, KindOfLine(raw), raw)
  }

  lemma MasterLinesFetchable(c: Context, lines: seq<string>)
    requires Trusted(c) && MasterRegular(c, lines)
    ensures AllFetchable(c, MasterLines(c, lines)) <==> MasterSound(c, lines)
  {
    hide NamedBy, Fetchable, RewriteMasterLine, RewriteLine, Sound, Regular, AllFetchable, KindOfLine;
    var after := MasterLines(c, lines);
    PassedFetchable(c, after);
    forall i | 0 <= i < |lines|
      ensures lines[i] in lines && after[i] in after
      ensures (NamedBy(after[i]).Some? ==> Fetchable(c, NamedBy(after[i]).value))
              <==> Sound(c, KindOfLine(lines[i]), lines[i])
    {
      assert after[i] == RewriteMasterLine(c, lines[i]);
      MasterLineNames(c, lines[i]);
      LineFetchableExactly(c, KindOfLine(lines[i]), lines[i]);
    }
  }

  /** Every variant, rendition and key URL of a rewritten trusted master is admitted or direct exactly if
      every line that is offered is sound. */
  lemma MasterFetchableExactly(c: Context, playlist: string)
    requires Trusted(c) && MasterRegular(c, Offered(c, Lines(playlist)))
    ensures AllFetchable(c, Lines(Unlines(MasterLines(c, Offered(c, Lines(playlist))))))
       <==> MasterSound(c, Offered(c, Lines(playlist)))
  {
    hide AllFetchable, MasterSound, MasterRegular, Lines, Unlines, MasterLines, Offered;
    var offered := Offered(c, Lines(playlist));
    OfferedHaveNoFeed(c, playlist);
    MasterLinesHaveNoFeed(c, offered);
    TextFetchable(c, MasterLines(c, offered));
    MasterLinesFetchable(c, offered);
  }

  lemma OfferedHaveNoFeed(c: Context, playlist: string)
    ensures forall raw | raw in Offered(c, Lines(playlist)) :: '\n' !in raw
  {
    hide Offered, Lines;
    LinesHaveNoFeed(playlist);
    OfferedLines(c, Lines(playlist));
  }

  lemma MasterLinesHaveNoFeed(c: Context, lines: seq<string>)
    requires ContextOk(c) && forall raw | raw in lines :: '\n' !in raw
    ensures forall line | line in MasterLines(c, lines) :: '\n' !in line
  {
    hide RewriteMasterLine;
    forall line | line in MasterLines(c, lines) ensures '\n' !in line {
      var i :| 0 <= i < |lines| && line == RewriteMasterLine(c, lines[i]);
      assert lines[i] in lines;
      MasterLineHasNoFeed(c, lines[i]);
    }
  }

  lemma MasterLineHasNoFeed(c: Context, raw: string)
    requires ContextOk(c) && '\n' !in raw
    ensures '\n' !in RewriteMasterLine(c, raw)
  {
    hide RewriteTag, RewriteUriLine, StripVideoOnlyCodecs;
    var line := TrimEnd(raw);
    NotBlank(raw);
    TrimEndShape(raw);
    assert forall ch | ch in line :: ch in raw;
    if line != "" {
      OneCharPrefix(line, '#');
      if StartsWith(line, "#") {
        RewrittenTagStaysOnLine(c, KindOfTag(line), line);
        StrippedAvoids(RewriteTag(c, KindOfTag(line), line), '\n');
      } else {
        RewrittenUriLine(c, Playlist, line);
      }
    }
  }

  lemma StrippedAvoids(line: string, ch: char)
    requires ch !in line && ch != ',' && ch != ':'
    ensures ch !in StripVideoOnlyCodecs(line)
  {
    hide RemoveCodecs;
    RemovalAvoids(line, ch);
  }

  // ---------------------------------------------------------------------------
  // The ladder a player reads from the rewritten master
  // ---------------------------------------------------------------------------

  predicate Unindented(raw: string) { IsTag(TrimStart(raw)) ==> IsTag(raw) }

  function RewriteVariants(c: Context, variants: seq<(string, string)>): (r: seq<(string, string)>)
    ensures |r| == |variants| && forall i | 0 <= i < |variants| ::
              r[i] == (RewriteMasterLine(c, variants[i].0), RewriteMasterLine(c, variants[i].1))
  {
    seq(|variants|, i requires 0 <= i < |variants| =>
      (RewriteMasterLine(c, variants[i].0), RewriteMasterLine(c, variants[i].1)))
  }

  function RewriteLadder(c: Context, l: Ladder): Ladder {
    Ladder(RewriteVariants(c, l.variants), if l.pending.Some? then Some(RewriteMasterLine(c,
        l.pending.value)) else None,
           MasterLines(c, l.orphans))
  }

  lemma TaggedLine(line: string)
    requires StartsWith(line, "#")
    ensures TrimStart(line) == line && !IsUri(line)
  {
    OneCharPrefix(line, '#');
  }

  lemma MasterTagClass(c: Context, line: string)
    requires StartsWith(line, "#") && TrimEnd(line) == line
    ensures IsStreamInf(RewriteMasterTag(c, line)) <==> IsStreamInf(line)
    ensures !IsUri(RewriteMasterTag(c, line)) && !IsUri(line)
  {
    hide RewriteTag, RewriteMasterTag, IsStreamInf, IsUri;
    var after := RewriteMasterTag(c, line);
    TaggedLine(line);
    if IsStreamInf(line) {
      VariantTag(c, line);
      NoColonInName();
      OneCharPrefix(after, '#');
      TaggedLine(after);
      VariantIsStreamInf(after);
    } else {
      OtherTag(c, line);
      assert '"' !in "#";
      RewrittenTagName(c, KindOfTag(line), line, "#");
      TagTests(c, KindOfTag(line), line);
      TaggedLine(after);
    }
  }

  lemma VariantIsStreamInf(line: string)
    requires STREAM_INF <= line && TrimStart(line) == line
    ensures IsStreamInf(line)
  {
  }

  lemma PlainLine(line: string)
    requires line != "" && TrimEnd(line) == line && !IsTag(TrimStart(line))
    ensures IsUri(line) && !IsStreamInf(line)
  {
    NotBlank(line);
    assert Trim(line) == TrimStart(line);
    OneCharPrefix(TrimStart(line), '#');
    UriIsNoTag(line);
  }

  lemma UriIgnoresEnd(raw: string)
    ensures IsUri(TrimEnd(raw)) <==> IsUri(raw)
    ensures IsTag(TrimStart(TrimEnd(raw))) <==> IsTag(TrimStart(raw))
  {
    TrimCommutes(raw);
    TrimEndShape(TrimStart(raw));
    TrimStartShape(raw);
    OneCharPrefix(TrimStart(raw), '#');
    OneCharPrefix(Trim(raw), '#');
  }

  lemma MasterUriClass(c: Context, line: string)
    requires ContextOk(c) && line != "" && TrimEnd(line) == line && !IsTag(TrimStart(line))
    ensures IsUri(RewriteUriLine(c, Playlist, line)) && !IsStreamInf(RewriteUriLine(c, Playlist, line))
  {
    hide IsUri, IsStreamInf, Child;
    if Child(c, Playlist, line).Some? {
      var child := Child(c, Playlist, line).value;
      ChildUrlFacts(c, Playlist, line);
      assert TrimStart(child) == child;
      PlainLine(child);
    } else {
      PlainLine(line);
    }
  }

  lemma BlankClass()
    ensures !IsUri("") && !IsStreamInf("")
  {
    BlankTests();
  }

  /** Rewriting keeps what kind of line a line of a master is. */
  lemma MasterLineClass(c: Context, raw: string)
    requires ContextOk(c) && Unindented(raw)
    ensures IsStreamInf(RewriteMasterLine(c, raw)) <==> IsStreamInf(raw)
    ensures IsUri(RewriteMasterLine(c, raw)) <==> IsUri(raw)
  {
    hide IsUri, IsStreamInf, RewriteUriLine, RewriteMasterTag;
    var line := TrimEnd(raw);
    NotBlank(raw);
    TestsIgnoreEnd(raw);
    UriIgnoresEnd(raw);
    BlankClass();
    if line != "" {
      TrimEndShape(raw);
      OneCharPrefix(line, '#');
      if StartsWith(line, "#") {
        MasterTagClass(c, line);
      } else {
        MasterUriClass(c, line);
        PlainLine(line);
      }
    }
  }

  lemma LadderLineRewritten(c: Context, l: Ladder, raw: string)
    requires ContextOk(c) && Unindented(raw)
    ensures LadderLine(RewriteLadder(c, l), RewriteMasterLine(c, raw)) == RewriteLadder(c, LadderLine(l, raw))
  {
    hide IsUri, IsStreamInf, RewriteMasterLine;
    MasterLineClass(c, raw);
    var after := RewriteMasterLine(c, raw);
    if l.pending.Some? {
      assert RewriteVariants(c, l.variants + [(l.pending.value, raw)])
          == RewriteVariants(c, l.variants) + [(RewriteMasterLine(c, l.pending.value), after)];
    }
    assert MasterLines(c, l.orphans + [raw]) == MasterLines(c, l.orphans) + [after];
  }

  /** A player reads from the rewritten lines the ladder of the lines, variant by variant. */
  lemma {:induction false} LadderRewritten(c: Context, lines: seq<string>)
    requires ContextOk(c) && forall raw | raw in lines :: Unindented(raw)
    ensures ReadLadder(MasterLines(c, lines)) == RewriteLadder(c, ReadLadder(lines))
  {
    if lines == [] {
      assert MasterLines(c, lines) == [] && RewriteVariants(c, []) == [];
    } else {
      hide RewriteMasterLine, LadderLine, RewriteLadder, Unindented;
      var front, last := lines[..|lines| - 1], lines[|lines| - 1];
      LadderRewritten(c, front);
      assert MasterLines(c, lines)[..|front|] == MasterLines(c, front);
      LadderLineRewritten(c, ReadLadder(front), last);
    }
  }

  /** Splitting the joined lines again costs a variant tag a carriage return at its end. */
  function CrFree(l: Ladder): Ladder {
    Ladder(CrFreeVariants(l.variants), if l.pending.Some? then Some(WithoutCr(l.pending.value)) else None,
           CrFreeLines(l.orphans))
  }

  function CrFreeVariants(variants: seq<(string, string)>): (r: seq<(string, string)>)
    ensures |r| == |variants|
            && forall i | 0 <= i < |variants| :: r[i] == (WithoutCr(variants[i].0), WithoutCr(variants[i].1))
  {
    seq(|variants|, i requires 0 <= i < |variants| => (WithoutCr(variants[i].0), WithoutCr(variants[i].1)))
  }

  function CrFreeLines(lines: seq<string>): (r: seq<string>)
    ensures |r| == |lines| && forall i | 0 <= i < |lines| :: r[i] == WithoutCr(lines[i])
  {
    seq(|lines|, i requires 0 <= i < |lines| => WithoutCr(lines[i]))
  }

  lemma CrLine(l: Ladder, line: string)
    ensures LadderLine(CrFree(l), WithoutCr(line)) == CrFree(LadderLine(l, line))
  {
    hide IsUri, IsStreamInf, WithoutCr;
    CrTests(line);
    UriIgnoresEnd(line);
    UriIgnoresEnd(WithoutCr(line));
    assert TrimEnd(WithoutCr(line)) == TrimEnd(line) by { CrTrims(line); }
    if l.pending.Some? {
      assert CrFreeVariants(l.variants + [(l.pending.value, line)])
          == CrFreeVariants(l.variants) + [(WithoutCr(l.pending.value), WithoutCr(line))];
    }
    assert CrFreeLines(l.orphans + [line]) == CrFreeLines(l.orphans) + [WithoutCr(line)];
  }

  lemma CrTrims(line: string)
    ensures TrimEnd(WithoutCr(line)) == TrimEnd(line)
  {
  }

  lemma {:induction false} CrLadder(lines: seq<string>)
    ensures ReadLadder(CrFreeLines(lines)) == CrFree(ReadLadder(lines))
  {
    if lines == [] {
      assert CrFreeLines(lines) == [] && CrFreeVariants([]) == [];
    } else {
      hide LadderLine, CrFree, WithoutCr;
      var front, last := lines[..|lines| - 1], lines[|lines| - 1];
      CrLadder(front);
      assert CrFreeLines(lines)[..|front|] == CrFreeLines(front);
      CrLine(ReadLadder(front), last);
    }
  }

  /** Up to the last line, splitting again takes the carriage returns off; an empty last line goes. */
  lemma {:induction false} ResplitIsCrFree(lines: seq<string>)
    requires lines != []
    ensures var front, last := CrFreeLines(lines[..|lines| - 1]), lines[|lines| - 1];
            Resplit(lines) == front + if last == "" then [] else [last]
  {
    if |lines| == 1 {
      assert lines == [lines[0]] && CrFreeLines(lines[..0]) == [];
      assert [] + [lines[0]] == [lines[0]];
    } else {
      hide WithoutCr;
      ResplitIsCrFree(lines[1..]);
      var front := lines[..|lines| - 1];
      assert lines[1..][..|lines| - 2] == front[1..];
      assert CrFreeLines(front) == [WithoutCr(lines[0])] + CrFreeLines(front[1..]);
    }
  }

  /** A line at the end that is a variant tag gives no variant, and any other has no carriage return to lose. */
  lemma LastLineVariants(l: Ladder, last: string)
    requires IsUri(last) ==> WithoutCr(last) == last
    ensures LadderLine(CrFree(l), last).variants == CrFree(LadderLine(l, last)).variants
    ensures last == "" ==> LadderLine(l, last) == l
  {
    hide IsUri, IsStreamInf, WithoutCr;
    BlankClass();
    if l.pending.Some? {
      assert CrFreeVariants(l.variants + [(l.pending.value, last)])
          == CrFreeVariants(l.variants) + [(WithoutCr(l.pending.value), WithoutCr(last))];
    }
  }

  lemma ResplitVariants(lines: seq<string>)
    requires lines != [] && (IsUri(lines[|lines| - 1]) ==> WithoutCr(lines[|lines| - 1]) == lines[|lines| - 1])
    ensures ReadLadder(Resplit(lines)).variants == CrFreeVariants(ReadLadder(lines).variants)
  {
    hide LadderLine, IsUri, WithoutCr, Resplit, ReadLadder;
    var front, last := lines[..|lines| - 1], lines[|lines| - 1];
    assert lines == front + [last];
    ResplitIsCrFree(lines);
    CrLadder(front);
    ReadSnoc(front, last);
    ReadSnoc(CrFreeLines(front), last);
    LastLineVariants(ReadLadder(front), last);
    if last == "" { assert CrFreeLines(front) + [] == CrFreeLines(front); }
  }

  lemma MasterUriHasNoCr(c: Context, raw: string)
    requires ContextOk(c) && IsUri(RewriteMasterLine(c, raw)) && '\n' !in raw
    ensures WithoutCr(RewriteMasterLine(c, raw)) == RewriteMasterLine(c, raw)
  {
    hide RewriteMasterTag, RewriteUriLine, IsUri, Child;
    var line := TrimEnd(raw);
    NotBlank(raw);
    TrimEndShape(raw);
    assert forall ch | ch in line :: ch in raw;
    BlankClass();
    if line != "" {
      OneCharPrefix(line, '#');
      if StartsWith(line, "#") {
        MasterTagClass(c, line);
      } else {
        RewrittenUriLine(c, Playlist, line);
        EndIsFixed(RewriteUriLine(c, Playlist, line));
      }
    }
  }

  /** The variants that are offered: through this server the fitting ones, unless there is none. */
  ghost function OfferedVariants(c: Context, lines: seq<string>): seq<(string, string)> {
    if c.secret.Some? && !c.directSegments && AnyFits(lines) then FittingVariants(ReadLadder(lines).variants)
    else ReadLadder(lines).variants
  }

  /** A player of the served text is offered, in order and each with its own rewritten URI, exactly the upstream
      variants of at most 1080 lines or unknown height when the stream is trusted and passes through this
      server, and all of them when it does not or none fits. */
  lemma OffersFittingVariants(c: Context, playlist: string)
    requires ContextOk(c) && Complete(Lines(playlist)) && forall raw | raw in Lines(playlist) :: Unindented(raw)
    ensures ReadLadder(Lines(Unlines(MasterLines(c, Offered(c, Lines(playlist)))))).variants
         == CrFreeVariants(RewriteVariants(c, OfferedVariants(c, Lines(playlist))))
  {
    hide ReadLadder, Unindented, AnyFits, Complete, Lines, Unlines, Offered, MasterLines, CrFreeVariants, Resplit;
    var lines := Lines(playlist);
    var offered := Offered(c, lines);
    OfferedLines(c, lines);
    OfferedLadder(c, lines);
    OfferedHaveNoFeed(c, playlist);
    MasterLinesHaveNoFeed(c, offered);
    LinesOfUnlines(MasterLines(c, offered));
    LadderRewritten(c, offered);
    if offered == [] {
      NoVariants(c);
    } else {
      LastMasterLine(c, offered);
      ResplitVariants(MasterLines(c, offered));
    }
  }

  lemma OfferedLadder(c: Context, lines: seq<string>)
    requires Complete(lines)
    ensures ReadLadder(Offered(c, lines)).variants == OfferedVariants(c, lines)
  {
    hide ReadLadder, AnyFits, Complete;
    if AnyFits(lines) { CapFiltersLadder(lines); }
  }

  lemma LastMasterLine(c: Context, lines: seq<string>)
    requires ContextOk(c) && lines != [] && forall raw | raw in lines :: '\n' !in raw
    ensures var after := MasterLines(c, lines);
      after != [] && (IsUri(after[|after| - 1]) ==> WithoutCr(after[|after| - 1]) == after[|after| - 1])
  {
    hide RewriteMasterLine, IsUri, WithoutCr;
    var last := lines[|lines| - 1];
    assert MasterLines(c, lines)[|lines| - 1] == RewriteMasterLine(c, last);
    if IsUri(RewriteMasterLine(c, last)) { MasterUriHasNoCr(c, last); }
  }

  lemma NoVariants(c: Context)
    ensures MasterLines(c, []) == [] && Resplit([]) == [] && ReadLadder([]).variants == []
    ensures CrFreeVariants([]) == [] && RewriteVariants(c, []) == []
  {
  }

  // ---------------------------------------------------------------------------
  // Where codecs are dropped
  // ---------------------------------------------------------------------------

  /** The tag names an audio codec. */
  predicate NamesAudio(tag: string) {
    var lower := ToLower(tag);
    || Contains(lower, "mp4a") || Contains(lower, "ac-3") || Contains(lower, "ec-3") || Contains(lower, "opus")
    || Contains(lower, "flac") || Contains(lower, "alac") || Contains(lower, "dts")
  }

  /** The tag declares codecs, none of them for audio. */
  predicate VideoOnly(tag: string) { Contains(ToLower(tag), "codecs=") && !NamesAudio(tag) }

  /** `after` has the attributes of `before` but CODECS, in their order; an empty one at the end may be missing. */
  ghost predicate WithoutCodecs(before: string, after: string) {
    && (forall a | a in Attributes(after) :: a in Attributes(before) && !NamesCodecs(a))
    && (forall a | a in Attributes(before) && a != "" && !NamesCodecs(a) :: a in Attributes(after))
    && (Attributes(after) == Others(Attributes(before)) || Attributes(after) + [""] == Others(Attributes(before)))
    && IndexOfChar(after, ':') == IndexOfChar(before, ':')
    && after[..IndexOfChar(after, ':')] == before[..IndexOfChar(before, ':')]
  }

  /** What becomes of a variant tag once its URI attribute is rewritten, if it has one: it stays character by
      character, unless it declares codecs and none for audio. Then it loses them and nothing else. */
  ghost predicate Stripped(before: string, after: string) {
    if VideoOnly(before) then WithoutCodecs(before, after) else after == before
  }

  lemma AudioNames(tag: string)
    ensures NamesAudio(tag) <==> exists codec | codec in AUDIO_CODECS :: Contains(ToLower(tag), codec)
  {
    hide Contains, ToLower;
    assert AUDIO_CODECS[0] == "mp4a" && AUDIO_CODECS[1] == "ac-3" && AUDIO_CODECS[2] == "ec-3";
    assert AUDIO_CODECS[3] == "opus" && AUDIO_CODECS[4] == "flac" && AUDIO_CODECS[5] == "alac";
    assert AUDIO_CODECS[6] == "dts" && |AUDIO_CODECS| == 7;
    if codec :| codec in AUDIO_CODECS && Contains(ToLower(tag), codec) {
      var i :| 0 <= i < 7 && AUDIO_CODECS[i] == codec;
    }
  }

  lemma StripsExactly(tag: string)
    requires IsStreamInf(tag)
    ensures Stripped(tag, StripVideoOnlyCodecs(tag))
  {
    hide RemoveCodecs, Attributes, Others, IsCodecs, Contains, ToLower, IsStreamInf, NamesAudio;
    AudioNames(tag);
    if VideoOnly(tag) {
      RemovedAttributes(tag);
    }
  }

  lemma RemovedAttributes(tag: string)
    ensures WithoutCodecs(tag, RemoveCodecs(tag))
  {
    hide RemoveCodecs, Attributes, Others, IsCodecs, Join, NamesCodecs;
    KeepsOtherAttributes(tag);
    RemovedLine(tag);
    var others := Others(Attributes(tag));
    OthersOfOthers(Attributes(tag));
    forall a ensures IsCodecs(a) <==> NamesCodecs(a) { CodecsNamed(a); }
    forall a | a in others && a != "" ensures a in Attributes(RemoveCodecs(tag)) {
      if !LastIsNotEmpty(others) { assert others == others[..|others| - 1] + [""]; }
    }
    if !LastIsNotEmpty(others) { assert others[..|others| - 1] + [""] == others; }
  }

  /** The tag of a variant after URI rewriting alone. */
  function WithUri(c: Context, tag: string): string { RewriteTag(c, MasterResource, TrimEnd(tag)) }

  lemma VariantIsStripped(c: Context, raw: string)
    requires IsStreamInf(raw) && Unindented(raw)
    ensures Stripped(WithUri(c, raw), RewriteMasterLine(c, raw))
  {
    hide RewriteTag, StripVideoOnlyCodecs, Stripped, IsStreamInf;
    var line := TrimEnd(raw);
    TestsIgnoreEnd(raw);
    NotBlank(raw);
    VariantLine(raw);
    VariantRewritten(c, KindOfTag(line), line);
    VariantKind(line);
    StreamInfName(RewriteTag(c, MasterResource, line));
    StripsExactly(RewriteTag(c, MasterResource, line));
  }

  lemma VariantLine(raw: string)
    requires IsStreamInf(raw) && Unindented(raw)
    ensures StartsWith(TrimEnd(raw), "#") && TrimEnd(raw) != "" && TrimEnd(TrimEnd(raw)) == TrimEnd(raw)
    ensures IsStreamInf(TrimEnd(raw)) && STREAM_INF <= TrimEnd(raw)
  {
    hide IsStreamInf;
    TestsIgnoreEnd(raw);
    NotBlank(raw);
    VariantIsTag(raw);
    TrimEndShape(raw);
    OneCharPrefix(TrimEnd(raw), '#');
    HashIsVariant(TrimEnd(raw));
  }

  lemma VariantIsTag(raw: string)
    requires IsStreamInf(raw)
    ensures IsTag(TrimStart(raw))
  {
    NoColonInName();
  }

  lemma VariantKind(line: string)
    requires STREAM_INF <= line
    ensures KindOfTag(line) == MasterResource
  {
    assert |STREAM_INF| > 8 && STREAM_INF[7] == 'S' && MEDIA_COLON[7] == 'M' && I_FRAME_COLON[7] == 'I';
    assert line[7] == STREAM_INF[7];
  }

  lemma StreamInfName(line: string)
    requires STREAM_INF <= line
    ensures IsStreamInf(line)
  {
    NoColonInName();
    assert line[0] == '#';
    assert TrimStart(line) == line;
  }

  lemma {:induction false} LadderTags(lines: seq<string>)
    ensures forall v | v in ReadLadder(lines).variants :: v.0 in lines && IsStreamInf(v.0)
    ensures ReadLadder(lines).pending.Some? ==>
              ReadLadder(lines).pending.value in lines && IsStreamInf(ReadLadder(lines).pending.value)
  {
    if lines != [] {
      hide IsStreamInf, IsUri;
      var front, last := lines[..|lines| - 1], lines[|lines| - 1];
      assert lines == front + [last];
      LadderTags(front);
    }
  }

  lemma {:induction false} FittingArePart(variants: seq<(string, string)>)
    ensures forall v | v in FittingVariants(variants) :: v in variants
  {
    if variants != [] {
      hide TooTall;
      assert variants == variants[..|variants| - 1] + [variants[|variants| - 1]];
      FittingArePart(variants[..|variants| - 1]);
    }
  }

  lemma OfferedTags(c: Context, lines: seq<string>, i: nat)
    requires i < |OfferedVariants(c, lines)|
    ensures OfferedVariants(c, lines)[i].0 in lines && IsStreamInf(OfferedVariants(c, lines)[i].0)
  {
    hide ReadLadder, AnyFits, IsStreamInf;
    LadderTags(lines);
    FittingArePart(ReadLadder(lines).variants);
    assert OfferedVariants(c, lines)[i] in OfferedVariants(c, lines);
  }

  /** Of the variants a player of the returned text is offered: each has the tag it had upstream, with any URI
      in it rewritten, and without CODECS exactly if that names codecs and none for audio. */
  lemma OfferedCodecsExactly(c: Context, playlist: string, i: nat)
    requires ContextOk(c) && Complete(Lines(playlist)) && forall raw | raw in Lines(playlist) :: Unindented(raw)
    requires i < |OfferedVariants(c, Lines(playlist))|
    ensures var served := ReadLadder(Lines(Unlines(MasterLines(c, Offered(c, Lines(playlist)))))).variants;
            |served| == |OfferedVariants(c, Lines(playlist))|
            && exists tag :: Stripped(WithUri(c, OfferedVariants(c, Lines(playlist))[i].0), tag)
                             && served[i].0 == WithoutCr(tag)
  {
    hide ReadLadder, Unindented, AnyFits, Complete, Lines, Unlines, Offered, MasterLines, Stripped, WithUri,
        IsStreamInf,
         RewriteMasterLine, WithoutCr, OfferedVariants;
    var raw := OfferedVariants(c, Lines(playlist))[i].0;
    OffersFittingVariants(c, playlist);
    OfferedTags(c, Lines(playlist), i);
    VariantIsStripped(c, raw);
    var tag := RewriteMasterLine(c, raw);
    assert Stripped(WithUri(c, raw), tag);
  }
}
