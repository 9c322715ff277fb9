/** The VOD branch of the media rewriter, and what either media branch does to the sorting of a
    playlist into cacheable and not. */
module HlsVod {
  import opened Text
  import opened Decimal
  import opened HlsLines
  import opened HlsUri
  import opened HlsMedia
  import opened HlsWindow

  // ---------------------------------------------------------------------------
  // Line by line
  // ---------------------------------------------------------------------------

  function RewriteLine(c: Context, kind: Kind, raw: string): string {
    var line := TrimEnd(raw);
    if Trim(line) == "" then line
    else if StartsWith(line, "#") then RewriteTag(c, kind, line)
    else RewriteUriLine(c, kind, line)
  }

  function VodLines(c: Context, lines: seq<string>): (r: seq<string>)
    ensures |r| == |lines| && forall i | 0 <= i < |lines| :: r[i] == RewriteLine(c, VodResource, lines[i])
  {
    seq(|lines|, i requires 0 <= i < |lines| => RewriteLine(c, VodResource, lines[i]))
  }

  /** `rewrite_vod_hls_media_playlist` */
  method RewriteVod(c: Context, lines: seq<string>) returns (text: string)
    ensures text == Unlines(VodLines(c, lines))
  {
    var rewritten: seq<string> := [];
    for i := 0 to |lines|
      invariant rewritten == VodLines(c, lines[..i])
    {
      assert VodLines(c, lines[..i + 1]) == VodLines(c, lines[..i]) + [RewriteLine(c, VodResource, lines[i])];
      var line := TrimEnd(lines[i]);
      if Trim(line) == "" {
        rewritten := rewritten + [line];
        continue;
      }
      if StartsWith(line, "#") {
        rewritten := rewritten + [RewriteTag(c, VodResource, line)];
        continue;
      }
      rewritten := rewritten + [RewriteUriLine(c, VodResource, line)];
    }
    assert lines[..|lines|] == lines;
    text := Unlines(rewritten);
  }

  lemma RewrittenLineIsClean(c: Context, kind: Kind, raw: string)
    requires ContextOk(c) && '\n' !in raw
    ensures CleanLine(RewriteLine(c, kind, raw)) && TrimEnd(RewriteLine(c, kind, raw)) == RewriteLine(c, kind, raw)
  {
    hide RewriteTag, RewriteUriLine;
    var line := TrimEnd(raw);
    NotBlank(raw);
    TrimEndShape(raw);
    assert forall ch | ch in line :: ch in raw;
    if line != "" {
      OneCharPrefix(line, '#');
      if StartsWith(line, "#") {
        RewrittenTagText(c, kind, line);
        RewrittenTagStaysOnLine(c, kind, line);
      } else {
        RewrittenUriLine(c, kind, line);
      }
      if RewriteLine(c, kind, raw) != "" { EndIsFixed(RewriteLine(c, kind, raw)); }
    }
  }
}
