/** How src/live.rs turns one upstream URI, on a line of its own or in a quoted `URI` attribute, into
    the URL the player gets. */
module HlsUri {
  import opened Text
  import opened SignedUrl
  import FormUrl

  /** The surroundings of one rewrite. `join` resolves against the playlist's own URL, `direct` says
      which hosts a browser may fetch itself. */
  datatype Context = Context(lib: Lib, join: string -> Option<Url>, baseHost: Option<string>, referer: Option<string>,
                             secret: Option<string>, directSegments: bool, direct: Url -> bool)

  /** Parser and resolver as the `url` crate has them. Of a resolved URL, whatever its scheme, only this is
      used: it parses to itself, starts with its scheme, has no blanks at its ends and no line feed. It
      may well hold blanks, commas and quotes. */
  ghost predicate ContextOk(c: Context) {
    && ParserOk(c.lib)
    && forall s | c.join(s).Some? :: WellFormedUrl(c.lib, c.join(s).value)
  }

  predicate WellFormedUrl(lib: Lib, url: Url) {
    lib.parse(url.text) == Some(url) && LineText(url.text)
  }

  /** Text that can stand on a URI line. */
  predicate LineText(s: string) { s != "" && Trimmed(s) && s[0] != '#' && '\n' !in s }

  /** `resolve_hls_uri` */
  function ResolveUri(c: Context, value: string): Option<string> {
    var trimmed := Trim(value);
    if trimmed == "" then None
    else
      match c.join(trimmed)
      case None => None
      case Some(url) => Some(url.text)
  }

  /** `direct_hls_url_if_eligible` */
  function DirectUrl(c: Context, input: string): Option<string> {
    if !c.directSegments then None
    else
      match c.lib.parse(input)
      case None => None
      case Some(url) => if url.host.Some? && c.direct(url) then Some(input) else None
  }

  predicate SameHost(a: string, b: string) { ToLower(a) == ToLower(b) }

  /** `should_omit_hls_resource_referer` */
  predicate OmitsReferer(c: Context, input: string) {
    && c.referer.Some? && c.lib.parse(c.referer.value).Some?
    && (var page := c.lib.parse(c.referer.value).value;
        page.host.Some? && SameHost(page.host.value, "vidlink.pro"))
    && c.lib.parse(input).Some? && c.lib.parse(input).value.host.Some? && c.baseHost.Some?
    && !SameHost(c.lib.parse(input).value.host.value, c.baseHost.value)
  }

  function ResourceReferer(c: Context, input: string): Option<string> {
    if OmitsReferer(c, input) then None else c.referer
  }

  /** What an upstream URI is replaced by, depending on where it stands. */
  datatype Kind = Playlist | MasterResource | Resource | VodResource

  function PathFor(kind: Kind): string {
    if kind == Playlist then PLAYLIST_PATH else RESOURCE_PATH
  }

  /** `live_hls_resource_referer_for_url`, which the master branch does not apply. */
  function RefererFor(c: Context, kind: Kind, absolute: string): Option<string> {
    if kind == Playlist || kind == MasterResource then c.referer else ResourceReferer(c, absolute)
  }

  function ProxyUrl(c: Context, kind: Kind, absolute: string): string {
    LiveHlsProxyUrl(c.lib, PathFor(kind), absolute, RefererFor(c, kind, absolute), c.secret)
  }

  function ChildUrl(c: Context, kind: Kind, absolute: string): string {
    match DirectUrl(c, absolute)
    case Some(url) => url
    case None => if kind == VodResource then TagVodResourceUrl(ProxyUrl(c, kind, absolute))
        else ProxyUrl(c, kind, absolute)
  }

  /** What stands in for an upstream URI; None when the URI does not resolve. */
  function Child(c: Context, kind: Kind, value: string): Option<string> {
    match ResolveUri(c, value)
    case Some(absolute) => Some(ChildUrl(c, kind, absolute))
    case None => None
  }

  /** A URI line; one that does not resolve stays. */
  function RewriteUriLine(c: Context, kind: Kind, line: string): string {
    match Child(c, kind, line)
    case Some(url) => url
    case None => line
  }

  /** Start and end of the text between the end of the first `mark` and the next quote. */
  function QuotedAfter(line: string, mark: string): (r: Option<(nat, nat)>)
    ensures r.Some? ==> |mark| <= r.value.0 <= r.value.1 < |line|
  {
    var i := IndexOf(line, mark);
    if i < |line| && i + |mark| <= |line| then
      var start := i + |mark|;
      var length := IndexOfChar(line[start..], '"');
      if length < |line[start..]| then Some((start, start + length)) else None
    else None
  }

  /** Replaces the quoted text after the first `mark` by what `f` makes of it. */
  function ReplaceQuoted(line: string, mark: string, f: string -> Option<string>): string {
    match QuotedAfter(line, mark)
    case None => line
    case Some((start, end)) =>
      match f(line[start..end])
      case None => line
      case Some(url) => line[..start] + url + line[end..]
  }

  const URI_MARK := "URI=\""

  function UriAttribute(line: string): Option<(nat, nat)> { QuotedAfter(line, URI_MARK) }

  /** `rewrite_hls_uri_attribute` */
  function RewriteTag(c: Context, kind: Kind, line: string): string {
    ReplaceQuoted(line, URI_MARK, value => Child(c, kind, value))
  }

  // ---------------------------------------------------------------------------
  // Children of a trusted playlist are admitted
  // ---------------------------------------------------------------------------

  /** A child the player may use: fetched directly where the host allows it, else a proxy URL that
      the verifier admits and that names exactly `absolute`. */
  predicate Admitted(c: Context, child: string, absolute: string)
    requires c.secret.Some?
  {
    || DirectUrl(c, absolute) == Some(child)
    || (IsSignedLiveHlsRequest(c.lib, c.secret.value, child) && DecodedInput(child) == Some(absolute))
  }

  /** A trusted rewrite: a secret without outer blanks and a referer the request parser has already
      normalised. */
  ghost predicate Trusted(c: Context) {
    && ContextOk(c)
    && c.secret.Some? && c.secret.value != "" && Trim(c.secret.value) == c.secret.value
    && (c.referer.Some? ==> exists raw :: c.referer == NormalizeHlsReferer(c.lib, raw))
  }

  /** A normalised referer is either kept by the builder and then fits, or dropped by it. */
  lemma NormalizedRefererFits(lib: Lib, raw: string)
    requires ParserOk(lib)
    ensures RefererFits(lib, NormalizeHlsReferer(lib, raw))
  {
    var referer := NormalizeHlsReferer(lib, raw);
    NormalizingAgain(lib, Some(raw));
    if referer.Some? {
      assert NormalizeReferer(lib, Some(raw)) == referer;
    }
  }

  lemma ResolvedUrl(c: Context, value: string)
    requires ContextOk(c) && ResolveUri(c, value).Some?
    ensures var absolute := ResolveUri(c, value).value;
      && NormalizeSignatureInput(c.lib, absolute) == absolute
      && LineText(absolute)
  {
    var url := c.join(Trim(value)).value;
    assert WellFormedUrl(c.lib, url);
    TrimmedIsFixed(url.text);
  }

  lemma ChildIsBuilt(c: Context, kind: Kind, absolute: string)
    requires c.secret.Some? && DirectUrl(c, absolute).None?
    ensures ChildUrl(c, kind, absolute)
         == BuiltUrl(c.lib, PathFor(kind), absolute, RefererFor(c, kind, absolute), c.secret.value, kind == VodResource)
  {
    hide LiveHlsProxyUrl, UrlSafe, VodMark, DirectUrl, RefererFor;
    BuiltUrlCharacters(c.lib, PathFor(kind), absolute, RefererFor(c, kind, absolute), c.secret);
    var built := ProxyUrl(c, kind, absolute);
    assert built + "" == built;
  }

  lemma RefererForFits(c: Context, kind: Kind, absolute: string)
    requires Trusted(c)
    ensures RefererFits(c.lib, RefererFor(c, kind, absolute))
  {
    if c.referer.Some? {
      var raw :| c.referer == NormalizeHlsReferer(c.lib, raw);
      NormalizedRefererFits(c.lib, raw);
    }
  }

  lemma ProxiedAdmitted(c: Context, kind: Kind, absolute: string)
    requires Trusted(c) && DirectUrl(c, absolute).None? && NormalizeSignatureInput(c.lib, absolute) == absolute
    ensures IsSignedLiveHlsRequest(c.lib, c.secret.value, ChildUrl(c, kind, absolute))
    ensures DecodedInput(ChildUrl(c, kind, absolute)) == Some(absolute)
  {
    var referer := RefererFor(c, kind, absolute);
    RefererForFits(c, kind, absolute);
    ChildIsBuilt(c, kind, absolute);
    assert ProxyPath(PathFor(kind));
    BuiltUrlAdmitted(c.lib, PathFor(kind), absolute, referer, c.secret.value, kind == VodResource);
  }

  /** Every URL that stands in for an upstream URI of a trusted playlist is admitted. */
  lemma ChildAdmitted(c: Context, kind: Kind, value: string)
    requires Trusted(c) && ResolveUri(c, value).Some?
    ensures Admitted(c, ChildUrl(c, kind, ResolveUri(c, value).value), ResolveUri(c, value).value)
  {
    var absolute := ResolveUri(c, value).value;
    ResolvedUrl(c, value);
    if DirectUrl(c, absolute).None? {
      ProxiedAdmitted(c, kind, absolute);
    }
  }

  /** The host of an address, in lower case. */
  function HostOf(lib: Lib, address: string): Option<string> {
    match lib.parse(address)
    case None => None
    case Some(url) => if url.host.Some? then Some(ToLower(url.host.value)) else None
  }

  /** A page of vidlink.pro, and a resource on another host than the playlist's. */
  predicate FromVidlinkElsewhere(c: Context, absolute: string) {
    && c.referer.Some? && HostOf(c.lib, c.referer.value) == Some("vidlink.pro")
    && c.baseHost.Some? && HostOf(c.lib, absolute).Some?
    && HostOf(c.lib, absolute).value != ToLower(c.baseHost.value)
  }

  /** A proxied URL of a trusted playlist leads to the handler for its kind, carries the page the stream was
      opened from, unless it is a media resource that vidlink.pro keeps on a host of its own, and is marked
      as VOD exactly for VOD resources. */
  lemma ChildSays(c: Context, kind: Kind, absolute: string)
    requires Trusted(c) && DirectUrl(c, absolute).None?
    ensures var child := ChildUrl(c, kind, absolute);
            var params := FormUrl.Parse(UriQuery(child));
      && UriPath(child) == (if kind == Playlist then "/api/live/hls.m3u8" else "/api/live/hls-resource")
      && FormUrl.Get(params, "vod") == (if kind == VodResource then Some("1") else None)
      && FormUrl.Get(params, "referer")
         == if kind in {Resource, VodResource} && FromVidlinkElsewhere(c, absolute) then None
            else NormalizeReferer(c.lib, c.referer)
  {
    hide FormUrl.Parse, FormUrl.Get, UriQuery, UriPath, BuiltUrl, ChildUrl, OmitsReferer, FromVidlinkElsewhere;
    ChildIsBuilt(c, kind, absolute);
    assert ProxyPath(PathFor(kind));
    BuiltUrlSays(c.lib, PathFor(kind), absolute, RefererFor(c, kind, absolute), c.secret.value, kind == VodResource);
    OmittedExactly(c, absolute);
  }

  lemma OmittedExactly(c: Context, absolute: string)
    ensures OmitsReferer(c, absolute) <==> FromVidlinkElsewhere(c, absolute)
  {
    hide ToLower;
    assert ToLower("vidlink.pro") == "vidlink.pro" by { LowerName(); }
  }

  lemma LowerName()
    ensures ToLower("vidlink.pro") == "vidlink.pro"
  {
  }

  /** What becomes of an upstream URI, told from the URL it resolves to without its outer blanks. A blank URI
      and one that does not resolve stay as they are, a URL whose host a browser may fetch from stands for
      itself where that is wanted, every other leads to one of the handlers and names that URL. */
  lemma ChildExactly(c: Context, kind: Kind, value: string)
    requires Trusted(c)
    ensures Child(c, kind, value).None? <==> (forall x | x in value :: IsWhitespace(x)) || c.join(Trim(value)).None?
    ensures Child(c, kind, value).Some? ==>
              var url, child := c.join(Trim(value)).value, Child(c, kind, value).value;
              if c.directSegments && url.host.Some? && c.direct(url) then child == url.text
              else UriPath(child) in {"/api/live/hls.m3u8", "/api/live/hls-resource"}
                   && FormUrl.Get(FormUrl.Parse(UriQuery(child)), "input") == Some(url.text)
    ensures RewriteUriLine(c, kind, value)
         == if Child(c, kind, value).Some? then Child(c, kind, value).value else value
  {
    hide FormUrl.Parse, FormUrl.Get, UriQuery, UriPath, BuiltUrl, ChildUrl, IsSignedLiveHlsRequest, WellFormedUrl;
    BlankExactly(value);
    if ResolveUri(c, value).Some? {
      var absolute := ResolveUri(c, value).value;
      ResolvedUrl(c, value);
      ParsesToItself(c, value);
      if DirectUrl(c, absolute).None? {
        ChildSays(c, kind, absolute);
        ProxiedAdmitted(c, kind, absolute);
      } else {
        DirectIsItself(c, kind, absolute);
      }
    }
  }

  lemma DirectIsItself(c: Context, kind: Kind, absolute: string)
    requires DirectUrl(c, absolute).Some?
    ensures ChildUrl(c, kind, absolute) == absolute
  {
  }

  lemma ParsesToItself(c: Context, value: string)
    requires ContextOk(c) && ResolveUri(c, value).Some?
    ensures ResolveUri(c, value) == Some(c.join(Trim(value)).value.text)
    ensures c.lib.parse(c.join(Trim(value)).value.text) == c.join(Trim(value))
  {
    assert WellFormedUrl(c.lib, c.join(Trim(value)).value);
  }

  lemma BlankExactly(s: string)
    ensures Trim(s) == "" <==> forall x | x in s :: IsWhitespace(x)
  {
    TrimEndShape(s);
    TrimStartShape(TrimEnd(s));
    var e := TrimEnd(s);
    if Trim(s) == "" {
      assert e == "";
    } else {
      assert Trim(s)[0] in e && forall x | x in e :: x in s;
    }
  }

  lemma VodMarkIsSafe(n: Names)
    requires NamesOk(n)
    ensures UrlSafe(VodMark(n))
  {
    FlagText(n.vod, n.on);
    AppendedIsSafe(n.vod, n.on);
  }

  lemma SafeIsLineText(s: string)
    requires s != "" && UrlSafe(s) && s[0] != '#'
    ensures LineText(s) && '"' !in s && ',' !in s
  {
    assert s[0] in s && s[|s| - 1] in s;
  }

  lemma ExtendedIsSafe(path: string, url: string, mark: string)
    requires path != "" && path[0] != '#' && path <= url && UrlSafe(url) && UrlSafe(mark)
    ensures LineText(url) && '"' !in url && ',' !in url
    ensures LineText(url + mark) && '"' !in url + mark && ',' !in url + mark
  {
    assert url[0] == path[0] && (url + mark)[0] == path[0];
    SafeIsLineText(url);
    SafeIsLineText(url + mark);
  }

  lemma ProxyUrlIsSafe(c: Context, kind: Kind, absolute: string, mark: string)
    requires UrlSafe(mark)
    ensures var url := ProxyUrl(c, kind, absolute);
      && LineText(url) && '"' !in url && ',' !in url
      && LineText(url + mark) && '"' !in url + mark && ',' !in url + mark
  {
    BuiltUrlCharacters(c.lib, PathFor(kind), absolute, RefererFor(c, kind, absolute), c.secret);
    ExtendedIsSafe(PathFor(kind), ProxyUrl(c, kind, absolute), mark);
  }

  /** What stands in for an upstream URI fits on a line, and a proxied one between quotes too. */
  lemma ChildUrlIsText(c: Context, kind: Kind, value: string)
    requires ContextOk(c) && ResolveUri(c, value).Some?
    ensures var absolute := ResolveUri(c, value).value;
            LineText(ChildUrl(c, kind, absolute))
            && (DirectUrl(c, absolute).None? ==>
                  '"' !in ChildUrl(c, kind, absolute) && ',' !in ChildUrl(c, kind, absolute))
  {
    hide LineText, ResolveUri, ProxyUrl, VodMark, UrlSafe, NormalizeSignatureInput;
    var absolute := ResolveUri(c, value).value;
    ResolvedUrl(c, value);
    NamesAreOk();
    VodMarkIsSafe(NAMES);
    ProxyUrlIsSafe(c, kind, absolute, VodMark(NAMES));
  }

  // ---------------------------------------------------------------------------
  // What rewriting leaves of a line
  // ---------------------------------------------------------------------------

  lemma DropDrop(s: string, j: nat)
    requires 1 <= j <= |s|
    ensures s[1..][j - 1..] == s[j..]
  {
  }

  lemma {:induction false} IndexOfFound(s: string, needle: string)
    requires needle != ""
    ensures IndexOf(s, needle) < |s| ==> needle <= s[IndexOf(s, needle)..]
    ensures forall j | 0 <= j < IndexOf(s, needle) :: !(needle <= s[j..])
  {
    assert s[0..] == s;
    if !(needle <= s) && s != "" {
      IndexOfFound(s[1..], needle);
      DropDrop(s, IndexOf(s, needle));
      forall j | 0 <= j < IndexOf(s, needle) ensures !(needle <= s[j..]) {
        if j > 0 { DropDrop(s, j); }
      }
    }
  }

  lemma {:induction false} IndexOfIs(s: string, needle: string, i: nat)
    requires needle != "" && i < |s| && needle <= s[i..] && forall j | 0 <= j < i :: !(needle <= s[j..])
    ensures IndexOf(s, needle) == i
  {
    if i > 0 {
      assert s[0..] == s;
      DropDrop(s, i);
      forall j | 0 <= j < i - 1 ensures !(needle <= s[1..][j..]) { DropDrop(s, j + 1); }
      IndexOfIs(s[1..], needle, i - 1);
    } else {
      assert s[0..] == s;
    }
  }

  lemma MarkAt(line: string, mark: string)
    requires QuotedAfter(line, mark).Some? && mark != ""
    ensures var (start, end) := QuotedAfter(line, mark).value;
      && line[start - |mark|..start] == mark && '"' !in line[start..end] && line[end] == '"'
      && start - |mark| == IndexOf(line, mark)
      && forall j | 0 <= j < start - |mark| :: !(mark <= line[j..])
  {
    hide IndexOf, IndexOfChar;
    IndexOfFound(line, mark);
    var (start, end) := QuotedAfter(line, mark).value;
    assert line[start..][end - start] == line[end];
    assert line[start..][..end - start] == line[start..end];
  }

  lemma PrefixAt(s: string, j: nat, needle: string)
    requires j <= |s|
    ensures needle <= s[j..] <==> j + |needle| <= |s| && s[j..j + |needle|] == needle
  {
  }

  lemma MarkStaysFirst(line: string, mark: string, value: string)
    requires QuotedAfter(line, mark).Some? && mark != ""
    ensures var (start, end) := QuotedAfter(line, mark).value;
            IndexOf(line[..start] + value + line[end..], mark) == start - |mark|
  {
    MarkAt(line, mark);
    var (start, end) := QuotedAfter(line, mark).value;
    var after := line[..start] + value + line[end..];
    var i := start - |mark|;
    forall j | 0 <= j < i ensures !(mark <= after[j..]) {
      PrefixAt(line, j, mark);
      PrefixAt(after, j, mark);
      assert after[j..j + |mark|] == line[j..j + |mark|];
    }
    PrefixAt(after, i, mark);
    assert after[i..start] == line[i..start];
    IndexOfIs(after, mark, i);
  }

  /** Replacing the quoted value by another one without quotes keeps the attribute where it was. */
  lemma AttributeStays(line: string, mark: string, value: string)
    requires QuotedAfter(line, mark).Some? && mark != "" && '"' !in value
    ensures var (start, end) := QuotedAfter(line, mark).value;
            var after := line[..start] + value + line[end..];
            QuotedAfter(after, mark) == Some((start, start + |value|)) && after[start..start + |value|] == value
  {
    hide IndexOf, IndexOfChar;
    MarkAt(line, mark);
    MarkStaysFirst(line, mark, value);
    var (start, end) := QuotedAfter(line, mark).value;
    var after := line[..start] + value + line[end..];
    assert after[start..] == value + ['"'] + line[end + 1..];
    IndexOfCharAt(value, line[end + 1..], '"');
  }

  lemma ChildrenStayOnLine(c: Context, kind: Kind)
    requires ContextOk(c)
    ensures forall v | Child(c, kind, v).Some? :: '\n' !in Child(c, kind, v).value
  {
    forall v | Child(c, kind, v).Some? ensures '\n' !in Child(c, kind, v).value { ChildUrlIsText(c, kind, v); }
  }

  lemma NameBeforeQuote(line: string, after: string, start: nat, name: string)
    requires 0 < start <= |line| && start <= |after| && line[..start] == after[..start]
    requires line[start - 1] == '"' && '"' !in name
    ensures name <= line <==> name <= after
  {
    assert after[start - 1] == after[..start][start - 1] == line[..start][start - 1] == '"';
    if |name| >= start {
      assert name[start - 1] in name;
    } else {
      assert line[..|name|] == line[..start][..|name|];
      assert after[..|name|] == after[..start][..|name|];
    }
  }

  predicate EndsInQuote(mark: string) { mark != "" && mark[|mark| - 1] == '"' }

  /** Replacing puts text between quotes, if anything. */
  lemma ReplacedBetweenQuotes(line: string, mark: string, f: string -> Option<string>)
      returns (start: nat, end: nat, child: string)
    requires EndsInQuote(mark)
    ensures var after := ReplaceQuoted(line, mark, f);
      after == line || (0 < start <= end < |line| && line[start - 1] == '"'
          && after == line[..start] + child + line[end..]
                        && f(line[start..end]) == Some(child))
  {
    start, end, child := 0, 0, "";
    if QuotedAfter(line, mark).Some? {
      MarkAt(line, mark);
      start, end := QuotedAfter(line, mark).value.0, QuotedAfter(line, mark).value.1;
      assert line[start - 1] == line[start - |mark|..start][|mark| - 1];
      if f(line[start..end]).Some? { child := f(line[start..end]).value; }
    }
  }

  lemma ReplacedName(line: string, mark: string, f: string -> Option<string>, name: string)
    requires EndsInQuote(mark) && '"' !in name
    ensures name <= ReplaceQuoted(line, mark, f) <==> name <= line
  {
    var start, end, child := ReplacedBetweenQuotes(line, mark, f);
    var after := ReplaceQuoted(line, mark, f);
    if after != line { NameBeforeQuote(line, after, start, name); }
  }

  /** A tag name cannot be made or lost by rewriting the attribute behind it. */
  lemma RewrittenTagName(c: Context, kind: Kind, line: string, name: string)
    requires '"' !in name
    ensures StartsWith(RewriteTag(c, kind, line), name) <==> StartsWith(line, name)
  {
    assert |URI_MARK| == 5 && URI_MARK[4] == '"';
    ReplacedName(line, URI_MARK, value => Child(c, kind, value), name);
  }

  lemma EndIsFixed(s: string)
    requires s != ""
    ensures TrimEnd(s) == s <==> !IsWhitespace(s[|s| - 1])
  {
    TrimEndShape(s);
  }

  lemma ReplacedText(line: string, mark: string, f: string -> Option<string>)
    requires EndsInQuote(mark) && TrimEnd(line) == line
    ensures var after := ReplaceQuoted(line, mark, f);
            TrimEnd(after) == after && (after == line || ('"' in line && '"' in after))
  {
    var start, end, child := ReplacedBetweenQuotes(line, mark, f);
    var after := ReplaceQuoted(line, mark, f);
    if after != line {
      EndIsFixed(line);
      EndIsFixed(after);
      assert after[start - 1] == line[start - 1];
      assert after[|after| - 1] == line[|line| - 1];
    }
  }

  /** What rewriting does to a tag besides the attribute value: nothing, or it has a quote in it. */
  lemma RewrittenTagText(c: Context, kind: Kind, line: string)
    requires TrimEnd(line) == line
    ensures TrimEnd(RewriteTag(c, kind, line)) == RewriteTag(c, kind, line)
    ensures RewriteTag(c, kind, line) == line || ('"' in line && '"' in RewriteTag(c, kind, line))
  {
    assert |URI_MARK| == 5 && URI_MARK[4] == '"';
    ReplacedText(line, URI_MARK, value => Child(c, kind, value));
  }

  lemma ConcatAvoids(a: string, b: string, c: string, ch: char)
    requires ch !in a && ch !in b && ch !in c
    ensures ch !in a + b + c
  {
  }

  lemma ReplacedStaysOnLine(line: string, mark: string, f: string -> Option<string>)
    requires EndsInQuote(mark) && '\n' !in line && forall v | f(v).Some? :: '\n' !in f(v).value
    ensures '\n' !in ReplaceQuoted(line, mark, f)
  {
    var start, end, child := ReplacedBetweenQuotes(line, mark, f);
    if ReplaceQuoted(line, mark, f) != line {
      ConcatAvoids(line[..start], child, line[end..], '\n');
    }
  }

  lemma RewrittenTagStaysOnLine(c: Context, kind: Kind, line: string)
    requires ContextOk(c) && '\n' !in line
    ensures '\n' !in RewriteTag(c, kind, line)
  {
    assert |URI_MARK| == 5 && URI_MARK[4] == '"';
    ChildrenStayOnLine(c, kind);
    ReplacedStaysOnLine(line, URI_MARK, value => Child(c, kind, value));
  }

  /** A line that is no tag stays one, and has nothing to trim. */
  lemma RewrittenUriLine(c: Context, kind: Kind, line: string)
    requires ContextOk(c) && line != "" && TrimEnd(line) == line && line[0] != '#' && '\n' !in line
    ensures var after := RewriteUriLine(c, kind, line);
            after != "" && TrimEnd(after) == after && after[0] != '#' && '\n' !in after
  {
    hide ChildUrl, ResolveUri, Trim;
    if Child(c, kind, line).Some? {
      ChildUrlIsText(c, kind, line);
      var after := RewriteUriLine(c, kind, line);
      EndIsFixed(after);
    }
  }
}
