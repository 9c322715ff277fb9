/** The signed proxy URLs of src/live.rs: `live_hls_proxy_url` builds them, `is_signed_live_hls_request`
    admits them without a session. The URL parser and HMAC-SHA-256 are parameters. */
module SignedUrl {
  import opened Text
  import Utf8
  import Base64Url
  import FormUrl

  type Bytes = seq<Utf8.byte>

  /** A parsed URL, by its serialisation and the parts the code looks at. */
  datatype Url = Url(text: string, scheme: string, host: Option<string>)

  /** The foreign functions: `Url::parse` and the keyed hash of (key, message). */
  datatype Lib = Lib(parse: string -> Option<Url>, mac: (Bytes, Bytes) -> Bytes)

  predicate IsHttp(url: Url) { url.scheme == "https" || url.scheme == "http" }

  predicate PlainText(s: string) { s != "" && forall c | c in s :: 0x21 <= c as int < 0x7f }

  /** What the proofs use of the URL parser: a serialisation parses to itself, and the serialisation
      of an http(s) URL is ASCII without blanks or control characters. */
  ghost predicate ParserOk(lib: Lib) {
    forall s | lib.parse(s).Some? ::
      lib.parse(lib.parse(s).value.text) == lib.parse(s)
      && (IsHttp(lib.parse(s).value) ==> PlainText(lib.parse(s).value.text))
  }

  // ---------------------------------------------------------------------------
  // Building and signing
  // ---------------------------------------------------------------------------

  const MAX_REFERER_BYTES := 2048

  function NormalizeHlsReferer(lib: Lib, value: string): Option<string> {
    var trimmed := Trim(value);
    if trimmed == "" || |Utf8.Encode(trimmed)| > MAX_REFERER_BYTES then None
    else if exists c | c in trimmed :: IsAsciiControl(c) then None
    else
      match lib.parse(trimmed)
      case None => None
      case Some(url) => if IsHttp(url) && url.host.Some? then Some(url.text) else None
  }

  function NormalizeReferer(lib: Lib, referer: Option<string>): Option<string> {
    match referer
    case None => None
    case Some(value) => NormalizeHlsReferer(lib, value)
  }

  function NormalizeSignatureInput(lib: Lib, input: string): string {
    match lib.parse(Trim(input))
    case Some(url) => url.text
    case None => Trim(input)
  }

  const CONTEXT := "streamarena-live-hls-v1"

  function Message(input: string, referer: Option<string>): Bytes {
    Utf8.Encode(CONTEXT) + [0] + Utf8.Encode(input) + [0] + Utf8.Encode(if referer.Some? then referer.value else "")
  }

  function Sign(lib: Lib, input: string, referer: Option<string>, secret: string): string {
    Base64Url.Encode(lib.mac(Utf8.Encode(secret), Message(input, referer)))
  }

  predicate Verify(lib: Lib, input: string, referer: Option<string>, signature: string, secret: string) {
    Base64Url.Decode(Trim(signature)) == Some(lib.mac(Utf8.Encode(secret), Message(input, referer)))
  }

  const PLAYLIST_PATH := "/api/live/hls.m3u8"
  const RESOURCE_PATH := "/api/live/hls-resource"

  /** The query parameters by name, and the text of a flag that is on. */
  datatype Names = Names(input: string, referer: string, trusted: string, signature: string, vod: string, on: string)

  const NAMES := Names("input", "referer", "externalEmbed", "sig", "vod", "1")

  /** `&name=value` */
  function Appended(name: string, value: string): string {
    "&" + name + "=" + FormUrl.EncodeValue(value)
  }

  /** The text of a URL: path, input, referer if any, trust marks if signed. */
  function UrlText(n: Names, path: string, input: string, referer: Option<string>, signature: Option<string>): string {
    var url := path + "?" + (n.input + "=" + FormUrl.EncodeValue(input));
    var url := if referer.Some? then url + Appended(n.referer, referer.value) else url;
    if signature.Some? then url + ("&" + n.trusted + "=" + n.on) + Appended(n.signature, signature.value) else url
  }

  /** `live_hls_proxy_url`; `secret` is present for trusted embeds. */
  function LiveHlsProxyUrl(lib: Lib, path: string, input: string, referer: Option<string>,
      secret: Option<string>): string {
    var input := if secret.Some? then NormalizeSignatureInput(lib, input) else input;
    var referer := NormalizeReferer(lib, referer);
    var signature := if secret.Some? && Trim(secret.value) != ""
        then Some(Sign(lib, input, referer, Trim(secret.value)))
                     else None;
    UrlText(NAMES, path, input, referer, signature)
  }

  function VodMark(n: Names): string { "&" + n.vod + "=" + n.on }

  /** `tag_vod_resource_url` */
  function TagVodResourceUrl(url: string): string {
    if StartsWith(url, RESOURCE_PATH) then url + VodMark(NAMES) else url
  }

  // ---------------------------------------------------------------------------
  // Admission
  // ---------------------------------------------------------------------------

  function UriPath(uri: string): string { uri[..IndexOfChar(uri, '?')] }

  function UriQuery(uri: string): string {
    var i := IndexOfChar(uri, '?');
    if i < |uri| then uri[i + 1..] else ""
  }

  predicate Admits(n: Names, lib: Lib, secret: string, params: FormUrl.Pairs) {
    var input, signature := FormUrl.Get(params, n.input), FormUrl.Get(params, n.signature);
    && FormUrl.Get(params, n.trusted) == Some(n.on)
    && input.Some? && signature.Some?
    && Verify(lib, input.value, NormalizeReferer(lib, FormUrl.Get(params, n.referer)), signature.value, secret)
  }

  predicate IsSignedLiveHlsRequest(lib: Lib, secret: string, uri: string) {
    && (UriPath(uri) == PLAYLIST_PATH || UriPath(uri) == RESOURCE_PATH)
    && Trim(secret) != ""
    && Admits(NAMES, lib, secret, FormUrl.Parse(UriQuery(uri)))
  }

  /** The upstream URL a request names. */
  function DecodedInput(uri: string): Option<string> {
    FormUrl.Get(FormUrl.Parse(UriQuery(uri)), NAMES.input)
  }

  // ---------------------------------------------------------------------------
  // The query that is built
  // ---------------------------------------------------------------------------

  predicate IsName(s: string) { forall c | c in s :: FormUrl.Unreserved(c) }

  predicate NamesOk(n: Names) {
    && IsName(n.input) && IsName(n.referer) && IsName(n.trusted) && IsName(n.signature) && IsName(n.vod) && IsName(n.on)
    && n.input !in {n.referer, n.trusted, n.signature, n.vod} && n.referer !in {n.trusted, n.signature, n.vod}
    && n.trusted !in {n.signature, n.vod} && n.signature != n.vod
  }

  function FirstPairs(n: Names, input: string, referer: Option<string>): FormUrl.Pairs {
    [(n.input, input)] + if referer.Some? then [(n.referer, referer.value)] else []
  }

  function QueryPairs(n: Names, input: string, referer: Option<string>, signature: string, vod: bool): FormUrl.Pairs {
    var pairs := FirstPairs(n, input, referer) + [(n.trusted, n.on)] + [(n.signature, signature)];
    if vod then pairs + [(n.vod, n.on)] else pairs
  }

  lemma Glue(s: string, name: string, value: string)
    ensures s + "&" + (name + "=" + value) == s + ("&" + name + "=" + value)
  {
  }

  lemma SerializeSnoc(pairs: FormUrl.Pairs, name: string, value: string)
    requires pairs != [] && IsName(name)
    ensures FormUrl.Serialize(pairs + [(name, value)]) == FormUrl.Serialize(pairs) + Appended(name, value)
  {
    FormUrl.ParseAppended(pairs, (name, value));
    PairText(name, value);
    Glue(FormUrl.Serialize(pairs), name, FormUrl.EncodeValue(value));
  }

  lemma PairText(name: string, value: string)
    requires IsName(name)
    ensures FormUrl.SerializePair((name, value)) == name + "=" + FormUrl.EncodeValue(value)
  {
    FormUrl.UnreservedUnchanged(name);
  }

  lemma FirstText(n: Names, input: string, referer: Option<string>)
    requires NamesOk(n)
    ensures FormUrl.Serialize(FirstPairs(n, input, referer))
         == (n.input + "=" + FormUrl.EncodeValue(input))
             + (if referer.Some? then Appended(n.referer, referer.value) else "")
  {
    PairText(n.input, input);
    if referer.Some? { SerializeSnoc([(n.input, input)], n.referer, referer.value); }
  }

  lemma SignedPairsText(n: Names, pairs: FormUrl.Pairs, signature: string)
    requires NamesOk(n) && pairs != []
    ensures FormUrl.Serialize(pairs + [(n.trusted, n.on)] + [(n.signature, signature)])
         == FormUrl.Serialize(pairs) + Appended(n.trusted, n.on) + Appended(n.signature, signature)
  {
    SerializeSnoc(pairs, n.trusted, n.on);
    SerializeSnoc(pairs + [(n.trusted, n.on)], n.signature, signature);
  }

  lemma QueryText(n: Names, input: string, referer: Option<string>, signature: string, vod: bool)
    requires NamesOk(n)
    ensures FormUrl.Serialize(QueryPairs(n, input, referer, signature, vod))
         == (n.input + "=" + FormUrl.EncodeValue(input))
             + (if referer.Some? then Appended(n.referer, referer.value) else "")
            + Appended(n.trusted, n.on) + Appended(n.signature, signature) + if vod then Appended(n.vod, n.on) else ""
  {
    FirstText(n, input, referer);
    SignedPairsText(n, FirstPairs(n, input, referer), signature);
    SerializeSnoc(FirstPairs(n, input, referer) + [(n.trusted, n.on)] + [(n.signature, signature)], n.vod, n.on);
  }

  lemma Regroup(path: string, a: string, b: string, c: string, d: string, e: string)
    ensures path + "?" + a + b + c + d + e == path + "?" + (a + b + c + d + e)
  {
  }

  /** A signed URL, with or without the VOD mark, is its path and the serialised pairs. */
  lemma SignedText(n: Names, path: string, input: string, referer: Option<string>, signature: string, vod: bool)
    requires NamesOk(n)
    ensures UrlText(n, path, input, referer, Some(signature)) + (if vod then VodMark(n) else "")
         == path + "?" + FormUrl.Serialize(QueryPairs(n, input, referer, signature, vod))
  {
    hide FormUrl.Serialize, FormUrl.EncodeValue, QueryPairs;
    QueryText(n, input, referer, signature, vod);
    FlagText(n.trusted, n.on);
    FlagText(n.vod, n.on);
    Regroup(path, n.input + "=" + FormUrl.EncodeValue(input), if referer.Some?
        then Appended(n.referer, referer.value) else "",
            Appended(n.trusted, n.on), Appended(n.signature, signature), if vod then Appended(n.vod, n.on) else "");
  }

  lemma FlagText(name: string, on: string)
    requires IsName(on)
    ensures Appended(name, on) == "&" + name + "=" + on
  {
    FormUrl.UnreservedUnchanged(on);
  }

  lemma GetLast(pairs: FormUrl.Pairs, name: string, value: string, key: string)
    ensures FormUrl.Get(pairs + [(name, value)], key) == if name == key then Some(value) else FormUrl.Get(pairs, key)
  {
    var all := pairs + [(name, value)];
    assert all[..|all| - 1] == pairs;
  }

  lemma GetFirst(n: Names, input: string, referer: Option<string>, key: string)
    requires NamesOk(n)
    ensures FormUrl.Get(FirstPairs(n, input, referer), key)
         == if key == n.input then Some(input) else if key == n.referer then referer else None
  {
    GetLast([], n.input, input, key);
    assert [] + [(n.input, input)] == [(n.input, input)];
    if referer.Some? { GetLast([(n.input, input)], n.referer, referer.value, key); }
  }

  lemma GetFromPairs(n: Names, input: string, referer: Option<string>, signature: string, vod: bool, key: string)
    requires NamesOk(n) && key in {n.input, n.referer, n.trusted, n.signature}
    ensures FormUrl.Get(QueryPairs(n, input, referer, signature, vod), key)
         == if key == n.input then Some(input) else if key == n.referer then referer
            else if key == n.trusted then Some(n.on) else Some(signature)
  {
    GetFirst(n, input, referer, key);
    GetLast(FirstPairs(n, input, referer), n.trusted, n.on, key);
    var third := FirstPairs(n, input, referer) + [(n.trusted, n.on)];
    GetLast(third, n.signature, signature, key);
    GetLast(third + [(n.signature, signature)], n.vod, n.on, key);
  }

  /** The VOD mark is read back as it was set. */
  lemma VodOfPairs(n: Names, input: string, referer: Option<string>, signature: string, vod: bool)
    requires NamesOk(n)
    ensures FormUrl.Get(QueryPairs(n, input, referer, signature, vod), n.vod) == if vod then Some(n.on) else None
  {
    hide FormUrl.Get;
    GetFirst(n, input, referer, n.vod);
    GetLast(FirstPairs(n, input, referer), n.trusted, n.on, n.vod);
    var third := FirstPairs(n, input, referer) + [(n.trusted, n.on)];
    GetLast(third, n.signature, signature, n.vod);
    GetLast(third + [(n.signature, signature)], n.vod, n.on, n.vod);
  }

  lemma LookupPairs(n: Names, input: string, referer: Option<string>, signature: string, vod: bool)
    requires NamesOk(n)
    ensures var pairs := QueryPairs(n, input, referer, signature, vod);
      && FormUrl.Get(pairs, n.input) == Some(input) && FormUrl.Get(pairs, n.referer) == referer
      && FormUrl.Get(pairs, n.trusted) == Some(n.on) && FormUrl.Get(pairs, n.signature) == Some(signature)
  {
    GetFromPairs(n, input, referer, signature, vod, n.input);
    GetFromPairs(n, input, referer, signature, vod, n.referer);
    GetFromPairs(n, input, referer, signature, vod, n.trusted);
    GetFromPairs(n, input, referer, signature, vod, n.signature);
  }

  lemma SplitUri(path: string, query: string)
    requires '?' !in path
    ensures UriPath(path + "?" + query) == path && UriQuery(path + "?" + query) == query
  {
    IndexOfCharAt(path, query, '?');
  }

  lemma TrimSignature(b: Bytes)
    ensures Trim(Base64Url.Encode(b)) == Base64Url.Encode(b)
  {
    Base64Url.EncodedAlphabet(b);
    assert forall c | c in Base64Url.Encode(b) :: Base64Url.CharSextet(c).Some? && !IsWhitespace(c);
    TrimmedIsFixed(Base64Url.Encode(b));
  }

  lemma NamesAreOk()
    ensures NamesOk(NAMES)
  {
    assert |NAMES.input| == 5 && |NAMES.referer| == 7 && |NAMES.trusted| == 13 && |NAMES.signature| == 3
        && |NAMES.vod| == 3;
    assert NAMES.signature[0] != NAMES.vod[0];
  }

  /** What the verifier sees of a signed URL. */
  lemma AdmitsSigned(n: Names, lib: Lib, path: string, input: string, referer: Option<string>, key: string,
                     secret: string, vod: bool)
    requires NamesOk(n) && '?' !in path
    ensures var uri := UrlText(n, path, input, referer, Some(Sign(lib, input, referer, key)))
            + (if vod then VodMark(n) else "");
      && UriPath(uri) == path
      && FormUrl.Get(FormUrl.Parse(UriQuery(uri)), n.input) == Some(input)
      && (Admits(n, lib, secret, FormUrl.Parse(UriQuery(uri))) <==>
            lib.mac(Utf8.Encode(secret), Message(input, NormalizeReferer(lib, referer)))
            == lib.mac(Utf8.Encode(key), Message(input, referer)))
  {
    var signature := Sign(lib, input, referer, key);
    var pairs := QueryPairs(n, input, referer, signature, vod);
    SignedText(n, path, input, referer, signature, vod);
    SplitUri(path, FormUrl.Serialize(pairs));
    FormUrl.PairsRoundTrip(pairs);
    LookupPairs(n, input, referer, signature, vod);
    TrimSignature(lib.mac(Utf8.Encode(key), Message(input, referer)));
    Base64Url.RoundTrip(lib.mac(Utf8.Encode(key), Message(input, referer)));
  }

  // ---------------------------------------------------------------------------
  // Builder and verifier agree
  // ---------------------------------------------------------------------------

  /** A URL the builder makes under `secret`, and the same URL with the VOD mark. */
  function BuiltUrl(lib: Lib, path: string, input: string, referer: Option<string>, secret: string, vod: bool): string {
    LiveHlsProxyUrl(lib, path, input, referer, Some(secret)) + if vod then VodMark(NAMES) else ""
  }

  predicate ProxyPath(path: string) { path == PLAYLIST_PATH || path == RESOURCE_PATH }

  lemma ProxyPathsHaveNoQuery(path: string)
    requires ProxyPath(path)
    ensures '?' !in path
  {
  }

  /** The verifier admits a built URL exactly when the tag it computes, under the secret as
      configured and the referer normalised once more, is the tag the builder computed under the
      trimmed secret; the upstream URL it reads is the builder's normalised input. */
  lemma BuiltUrlAdmittedWhenTagsMatch(lib: Lib, path: string, input: string, referer: Option<string>, secret: string,
      vod: bool)
    requires ProxyPath(path) && Trim(secret) != ""
    ensures DecodedInput(BuiltUrl(lib, path, input, referer, secret, vod)) == Some(NormalizeSignatureInput(lib, input))
    ensures var signed := NormalizeReferer(lib, referer);
      IsSignedLiveHlsRequest(lib, secret, BuiltUrl(lib, path, input, referer, secret, vod)) <==>
        lib.mac(Utf8.Encode(secret), Message(NormalizeSignatureInput(lib, input), NormalizeReferer(lib, signed)))
        == lib.mac(Utf8.Encode(Trim(secret)), Message(NormalizeSignatureInput(lib, input), signed))
  {
    ProxyPathsHaveNoQuery(path);
    NamesAreOk();
    AdmitsSigned(NAMES, lib, path, NormalizeSignatureInput(lib, input), NormalizeReferer(lib, referer), Trim(secret),
        secret, vod);
  }

  /** What a request handler reads from the query of a signed URL besides the signature. */
  lemma BuiltUrlSays(lib: Lib, path: string, input: string, referer: Option<string>, secret: string, vod: bool)
    requires ProxyPath(path) && Trim(secret) != ""
    ensures var uri := BuiltUrl(lib, path, input, referer, secret, vod);
            var params := FormUrl.Parse(UriQuery(uri));
      && UriPath(uri) == path
      && FormUrl.Get(params, NAMES.referer) == NormalizeReferer(lib, referer)
      && FormUrl.Get(params, NAMES.vod) == (if vod then Some(NAMES.on) else None)
  {
    ProxyPathsHaveNoQuery(path);
    NamesAreOk();
    PairsOfBuilt(NAMES, lib, path, NormalizeSignatureInput(lib, input), NormalizeReferer(lib, referer), Trim(secret),
        vod);
  }

  lemma PairsOfBuilt(n: Names, lib: Lib, path: string, input: string, referer: Option<string>, key: string, vod: bool)
    requires NamesOk(n) && '?' !in path
    ensures var uri := UrlText(n, path, input, referer, Some(Sign(lib, input, referer, key)))
            + (if vod then VodMark(n) else "");
            var params := FormUrl.Parse(UriQuery(uri));
      && UriPath(uri) == path && FormUrl.Get(params, n.referer) == referer
      && FormUrl.Get(params, n.vod) == (if vod then Some(n.on) else None)
  {
    hide UrlText, VodMark, Sign, QueryPairs, FormUrl.Get, FormUrl.Parse, FormUrl.Serialize, UriPath, UriQuery;
    var signature := Sign(lib, input, referer, key);
    SignedText(n, path, input, referer, signature, vod);
    SplitUri(path, FormUrl.Serialize(QueryPairs(n, input, referer, signature, vod)));
    FormUrl.PairsRoundTrip(QueryPairs(n, input, referer, signature, vod));
    LookupPairs(n, input, referer, signature, vod);
    VodOfPairs(n, input, referer, signature, vod);
  }

  /** An unsigned URL is its path and the first pairs. */
  lemma UnsignedText(n: Names, path: string, input: string, referer: Option<string>)
    requires NamesOk(n)
    ensures UrlText(n, path, input, referer, None) == path + "?" + FormUrl.Serialize(FirstPairs(n, input, referer))
  {
    hide FormUrl.Serialize, FormUrl.EncodeValue;
    FirstText(n, input, referer);
    Regroup(path, n.input + "=" + FormUrl.EncodeValue(input), if referer.Some?
        then Appended(n.referer, referer.value) else "", "", "", "");
  }

  lemma QueryOf(n: Names, path: string, input: string, referer: Option<string>, signature: Option<string>)
    requires NamesOk(n) && '?' !in path
    ensures var uri := UrlText(n, path, input, referer, signature);
      && UriPath(uri) == path
      && FormUrl.Parse(UriQuery(uri))
         == [(n.input, input)] + (if referer.Some? then [(n.referer, referer.value)] else [])
            + if signature.Some? then [(n.trusted, n.on), (n.signature, signature.value)] else []
  {
    hide UrlText, FormUrl.Parse, FormUrl.Serialize, UriPath, UriQuery;
    match signature
    case None =>
      UnsignedText(n, path, input, referer);
      SplitUri(path, FormUrl.Serialize(FirstPairs(n, input, referer)));
      FormUrl.PairsRoundTrip(FirstPairs(n, input, referer));
    case Some(tag) =>
      var pairs := QueryPairs(n, input, referer, tag, false);
      SignedText(n, path, input, referer, tag, false);
      assert UrlText(n, path, input, referer, signature) + "" == UrlText(n, path, input, referer, signature);
      SplitUri(path, FormUrl.Serialize(pairs));
      FormUrl.PairsRoundTrip(pairs);
  }

  /** Everything a built URL says, to whoever parses its query: the upstream URL, for a trusted embed as a URL
      parser writes it; the page, if one was given that can be sent; and, under a secret that is not blank,
      the mark of trust and the tag over both. */
  lemma BuiltQuery(lib: Lib, path: string, input: string, referer: Option<string>, secret: Option<string>)
    requires ProxyPath(path)
    ensures var uri := LiveHlsProxyUrl(lib, path, input, referer, secret);
            var named := if secret.None? then input
                         else if lib.parse(Trim(input)).Some? then lib.parse(Trim(input)).value.text else Trim(input);
            var page := NormalizeReferer(lib, referer);
            var query := FormUrl.Parse(UriQuery(uri));
            var told := [("input", named)] + if page.Some? then [("referer", page.value)] else [];
      && UriPath(uri) == path
      && (secret.None? || Trim(secret.value) == "" ==> query == told)
      && (secret.Some? && Trim(secret.value) != "" ==>
            query == told + [("externalEmbed", "1"), ("sig", Sign(lib, named, page, Trim(secret.value)))])
  {
    hide FormUrl.Parse, UriQuery, UriPath, Sign, UrlText, NormalizeReferer;
    ProxyPathsHaveNoQuery(path);
    NamesAreOk();
    var named := if secret.Some? then NormalizeSignatureInput(lib, input) else input;
    var page := NormalizeReferer(lib, referer);
    QueryOf(NAMES, path, named, page, if secret.Some? && Trim(secret.value) != ""
        then Some(Sign(lib, named, page, Trim(secret.value))) else None);
  }

  /** Which pages can be sent along, and as what: http and https URLs with a host, of at most 2048 bytes and
      without control characters, as a URL parser writes them. */
  lemma RefererExactly(lib: Lib, value: string, page: string)
    ensures NormalizeHlsReferer(lib, value) == Some(page)
       <==> && 0 < |Trim(value)| && |Utf8.Encode(Trim(value))| <= 2048
            && (forall c | c in Trim(value) :: 0x20 <= c as int != 0x7f)
            && exists url :: lib.parse(Trim(value)) == Some(url) && url.text == page && url.host.Some?
                             && url.scheme in {"http", "https"}
  {
    hide Trim, Utf8.Encode;
    if NormalizeHlsReferer(lib, value) == Some(page) {
      forall c | c in Trim(value) ensures 0x20 <= c as int != 0x7f { assert !IsAsciiControl(c); }
    } else if forall c | c in Trim(value) :: 0x20 <= c as int != 0x7f {
      assert !exists c | c in Trim(value) :: IsAsciiControl(c);
    }
  }

  lemma NothingEncoded()
    ensures Utf8.Encode("") == []
  {
  }

  /** The text under a tag: a label, the upstream URL and the page, kept apart by zero bytes. */
  lemma SignedBytes(input: string, page: Option<string>)
    ensures Message(input, page)
         == Utf8.Encode("streamarena-live-hls-v1") + [0] + Utf8.Encode(input) + [0]
             + (if page.Some? then Utf8.Encode(page.value) else [])
  {
    hide Utf8.Encode;
    assert Utf8.Encode("") == [] by { NothingEncoded(); }
  }

  /** The session bypass, told by the query alone: a request is admitted exactly if it is for one of the two
      handlers, there is a secret, and the query bears the mark of trust and, up to blanks, the tag of the
      upstream URL and page it names itself. */
  lemma AdmittedExactly(lib: Lib, secret: string, uri: string, query: FormUrl.Pairs)
    requires query == FormUrl.Parse(UriQuery(uri))
    ensures IsSignedLiveHlsRequest(lib, secret, uri)
       <==> && UriPath(uri) in {"/api/live/hls.m3u8", "/api/live/hls-resource"} && Trim(secret) != ""
            && FormUrl.Get(query, "externalEmbed") == Some("1")
            && FormUrl.Get(query, "input").Some? && FormUrl.Get(query, "sig").Some?
            && Trim(FormUrl.Get(query, "sig").value)
               == Sign(lib, FormUrl.Get(query, "input").value,
                       NormalizeReferer(lib, FormUrl.Get(query, "referer")), secret)
  {
    hide FormUrl.Parse, FormUrl.Get, UriPath, UriQuery, Trim, NormalizeReferer, Message;
    var input, sig := FormUrl.Get(query, "input"), FormUrl.Get(query, "sig");
    if input.Some? && sig.Some? {
      var tag := lib.mac(Utf8.Encode(secret),
          Message(input.value, NormalizeReferer(lib, FormUrl.Get(query, "referer"))));
      Base64Url.RoundTrip(tag);
      if Base64Url.Decode(Trim(sig.value)) == Some(tag) { Base64Url.Canonical(Trim(sig.value)); }
    }
  }

  /** The normalised referer still fits the limit that was checked before normalising. */
  predicate RefererFits(lib: Lib, referer: Option<string>) {
    var signed := NormalizeReferer(lib, referer);
    signed.None? || |Utf8.Encode(signed.value)| <= MAX_REFERER_BYTES
  }

  lemma NormalizingAgain(lib: Lib, referer: Option<string>)
    requires ParserOk(lib)
    ensures var signed := NormalizeReferer(lib, referer);
      && NormalizeReferer(lib, signed) == (if RefererFits(lib, referer) then signed else None)
      && (signed.Some? ==> signed.value != "")
  {
    var signed := NormalizeReferer(lib, referer);
    if signed.Some? {
      var text := signed.value;
      assert lib.parse(Trim(referer.value)).Some?;
      assert PlainText(text);
      assert text[0] in text && text[|text| - 1] in text;
      TrimmedIsFixed(text);
    }
  }

  /** Builder and verifier agree: under a secret without outer blanks and with a referer that fits,
      every URL built for a trusted embed is admitted, marked VOD or not, and names exactly the
      normalised upstream URL. */
  lemma BuiltUrlAdmitted(lib: Lib, path: string, input: string, referer: Option<string>, secret: string, vod: bool)
    requires ParserOk(lib) && ProxyPath(path)
    requires secret != "" && Trim(secret) == secret && RefererFits(lib, referer)
    ensures IsSignedLiveHlsRequest(lib, secret, BuiltUrl(lib, path, input, referer, secret, vod))
    ensures DecodedInput(BuiltUrl(lib, path, input, referer, secret, vod)) == Some(NormalizeSignatureInput(lib, input))
  {
    BuiltUrlAdmittedWhenTagsMatch(lib, path, input, referer, secret, vod);
    NormalizingAgain(lib, referer);
  }

  /** An idealised hash: equal tags come from equal keys and messages. */
  ghost predicate TagsAreUnique(lib: Lib) {
    forall k1, m1, k2, m2 | lib.mac(k1, m1) == lib.mac(k2, m2) :: k1 == k2 && m1 == m2
  }

  lemma MessageShowsReferer(input: string, r1: Option<string>, r2: Option<string>)
    ensures Message(input, r1) == Message(input, r2) ==>
      (if r1.Some? then r1.value else "") == (if r2.Some? then r2.value else "")
  {
    var front := Utf8.Encode(CONTEXT) + [0] + Utf8.Encode(input) + [0];
    var t1, t2 := if r1.Some? then r1.value else "", if r2.Some? then r2.value else "";
    assert Message(input, r1)[|front|..] == Utf8.Encode(t1);
    assert Message(input, r2)[|front|..] == Utf8.Encode(t2);
    Utf8.EncodeInjective(t1, t2);
  }

  /** And only then: with an ideal hash, a referer that outgrows its limit gets every built URL refused. So
      would a secret with outer blanks, which is trimmed when signing but not when verifying; the server
      trims the one it is configured with. */
  lemma BuiltUrlAdmittedExactly(lib: Lib, path: string, input: string, referer: Option<string>, secret: string,
      vod: bool)
    requires ParserOk(lib) && TagsAreUnique(lib) && ProxyPath(path) && Trim(secret) != ""
    ensures IsSignedLiveHlsRequest(lib, secret, BuiltUrl(lib, path, input, referer, secret, vod))
       <==> Trim(secret) == secret && RefererFits(lib, referer)
  {
    BuiltUrlAdmittedWhenTagsMatch(lib, path, input, referer, secret, vod);
    NormalizingAgain(lib, referer);
    var signed := NormalizeReferer(lib, referer);
    Utf8.EncodeInjective(secret, Trim(secret));
    MessageShowsReferer(NormalizeSignatureInput(lib, input), NormalizeReferer(lib, signed), signed);
  }

  /** A URL signed under one secret is refused under every other: with an ideal hash the session
      bypass needs the secret itself. */
  lemma OtherSecretRefused(lib: Lib, path: string, input: string, referer: Option<string>, secret: string,
      other: string, vod: bool)
    requires TagsAreUnique(lib) && ProxyPath(path) && Trim(secret) != "" && other != Trim(secret)
    ensures !IsSignedLiveHlsRequest(lib, other, BuiltUrl(lib, path, input, referer, secret, vod))
  {
    ProxyPathsHaveNoQuery(path);
    NamesAreOk();
    AdmitsSigned(NAMES, lib, path, NormalizeSignatureInput(lib, input), NormalizeReferer(lib, referer), Trim(secret),
        other, vod);
    Utf8.EncodeInjective(other, Trim(secret));
  }

  lemma {:induction false} NoZeroByte(s: string)
    requires forall c | c in s :: c as int != 0
    ensures forall b | b in Utf8.Encode(s) :: b != 0
  {
    if s != "" {
      assert s[0] in s && forall c | c in s[1..] :: c in s;
      NoZeroByte(s[1..]);
    }
  }

  /** The last zero byte tells where the second of two parts starts that has none itself. */
  lemma LastZero(a: Bytes, x: Bytes, b: Bytes, y: Bytes)
    requires (forall z | z in x :: z != 0) && forall z | z in y :: z != 0
    ensures a + [0] + x == b + [0] + y <==> a == b && x == y
  {
    var m, n := a + [0] + x, b + [0] + y;
    assert m[|a|] == 0 && n[|b|] == 0;
    forall k | |a| < k < |m| ensures m[k] != 0 { assert m[k] == x[k - |a| - 1] && x[k - |a| - 1] in x; }
    forall k | |b| < k < |n| ensures n[k] != 0 { assert n[k] == y[k - |b| - 1] && y[k - |b| - 1] in y; }
    assert m == n ==> |a| == |b|;
    assert m[..|a|] == a && n[..|b|] == b && m[|a| + 1..] == x && n[|b| + 1..] == y;
  }

  lemma NormalisedText(lib: Lib, raw: Option<string>)
    requires ParserOk(lib)
    ensures var referer := NormalizeReferer(lib, raw);
            referer.Some? ==> referer.value != "" && forall c | c in referer.value :: c as int != 0
  {
    if NormalizeReferer(lib, raw).Some? {
      assert lib.parse(Trim(raw.value)).Some?;
      assert PlainText(NormalizeReferer(lib, raw).value);
    }
  }

  /** A message shows its input and its normalised referer. */
  lemma MessageIsInjective(lib: Lib, i1: string, raw1: Option<string>, i2: string, raw2: Option<string>)
    requires ParserOk(lib)
    ensures Message(i1, NormalizeReferer(lib, raw1)) == Message(i2, NormalizeReferer(lib, raw2))
       <==> i1 == i2 && NormalizeReferer(lib, raw1) == NormalizeReferer(lib, raw2)
  {
    hide Utf8.Encode, NormalizeReferer;
    var r1, r2 := NormalizeReferer(lib, raw1), NormalizeReferer(lib, raw2);
    var t1, t2 := if r1.Some? then r1.value else "", if r2.Some? then r2.value else "";
    NormalisedText(lib, raw1);
    NormalisedText(lib, raw2);
    NoZeroByte(t1);
    NoZeroByte(t2);
    var front := Utf8.Encode(CONTEXT) + [0];
    LastZero(front + Utf8.Encode(i1), Utf8.Encode(t1), front + Utf8.Encode(i2), Utf8.Encode(t2));
    assert (front + Utf8.Encode(i1))[|front|..] == Utf8.Encode(i1);
    assert (front + Utf8.Encode(i2))[|front|..] == Utf8.Encode(i2);
    Utf8.EncodeInjective(i1, i2);
    Utf8.EncodeInjective(t1, t2);
  }

  /** A signature binds what it was made for: with an ideal hash any request that carries the tag of an upstream
      URL and a normalised referer is admitted exactly when it names that URL and, once normalised, that
      referer. */
  lemma SignatureBindsExactly(lib: Lib, secret: string, uri: string, input: string, raw: Option<string>)
    requires ParserOk(lib) && TagsAreUnique(lib) && secret != "" && Trim(secret) == secret
    requires ProxyPath(UriPath(uri)) && FormUrl.Get(FormUrl.Parse(UriQuery(uri)), NAMES.trusted) == Some(NAMES.on)
    requires FormUrl.Get(FormUrl.Parse(UriQuery(uri)), NAMES.signature)
          == Some(Sign(lib, input, NormalizeReferer(lib, raw), secret))
    ensures IsSignedLiveHlsRequest(lib, secret, uri)
       <==> DecodedInput(uri) == Some(input)
            && NormalizeReferer(lib, FormUrl.Get(FormUrl.Parse(UriQuery(uri)), NAMES.referer))
               == NormalizeReferer(lib, raw)
  {
    hide FormUrl.Parse, FormUrl.Get, UriPath, UriQuery, Message, NormalizeReferer;
    var tag := lib.mac(Utf8.Encode(secret), Message(input, NormalizeReferer(lib, raw)));
    TrimSignature(tag);
    Base64Url.RoundTrip(tag);
    if DecodedInput(uri).Some? {
      MessageIsInjective(lib, DecodedInput(uri).value, FormUrl.Get(FormUrl.Parse(UriQuery(uri)), NAMES.referer),
                         input, raw);
    }
  }

  // ---------------------------------------------------------------------------
  // A referer that outgrows its limit
  // ---------------------------------------------------------------------------

  function Repeated(piece: string, n: nat): string { if n == 0 then "" else piece + Repeated(piece, n - 1) }

  lemma {:induction false} RepeatedShape(piece: string, n: nat)
    ensures |Repeated(piece, n)| == |piece| * n
    ensures forall c | c in Repeated(piece, n) :: c in piece
  {
    if n > 0 { RepeatedShape(piece, n - 1); }
  }

  lemma {:induction false} AsciiLength(s: string)
    requires forall c | c in s :: c as int < 0x80
    ensures |Utf8.Encode(s)| == |s|
  {
    if s != "" {
      assert s[0] in s && forall c | c in s[1..] :: c in s;
      AsciiLength(s[1..]);
    }
  }

  const PAGE := "https://h/"

  /** A URL with 700 blanks, and what a URL parser makes of it. */
  function LongPage(): string { PAGE + Repeated(" ", 700) + "b" }

  function LongPageParsed(): string { PAGE + Repeated("%20", 700) + "b" }

  function LongPageLib(): Lib {
    Lib(s => if s == LongPage() || s == LongPageParsed() then Some(Url(LongPageParsed(), "https", Some("h")))
        else None, (k, m) => m)
  }

  predicate Visible(s: string) { forall c | c in s :: 0x21 <= c as int < 0x7f }

  lemma PageFacts()
    ensures |PAGE| == 10 && Visible(PAGE)
  {
  }

  /** A text between visible ends. */
  lemma Enclosed(front: string, middle: string, end: string)
    requires front != "" && end != "" && Visible(front) && Visible(end)
    requires forall c | c in middle :: 0x20 <= c as int < 0x7f
    ensures var s := front + middle + end;
      && |Utf8.Encode(s)| == |front| + |middle| + |end| && Trim(s) == s && !(exists c | c in s :: IsAsciiControl(c))
      && (Visible(middle) ==> PlainText(s))
  {
    var s := front + middle + end;
    assert forall c | c in s :: c in front || c in middle || c in end;
    AsciiLength(s);
    assert s[0] == front[0] && front[0] in front && s[|s| - 1] == end[|end| - 1] && end[|end| - 1] in end;
    TrimmedIsFixed(s);
  }

  lemma LongPageFacts()
    ensures |Utf8.Encode(LongPage())| <= MAX_REFERER_BYTES < |Utf8.Encode(LongPageParsed())|
    ensures Trim(LongPage()) == LongPage() && !(exists c | c in LongPage() :: IsAsciiControl(c))
    ensures LongPage() != "" && PlainText(LongPageParsed())
  {
    hide Repeated, Utf8.Encode, Trim, PlainText;
    PageFacts();
    RepeatedShape(" ", 700);
    RepeatedShape("%20", 700);
    assert Visible("%20") && Visible("b");
    Enclosed(PAGE, Repeated(" ", 700), "b");
    Enclosed(PAGE, Repeated("%20", 700), "b");
  }

  lemma LongPageIsNormalised()
    ensures ParserOk(LongPageLib()) && NormalizeHlsReferer(LongPageLib(), LongPage()) == Some(LongPageParsed())
  {
    hide LongPage, LongPageParsed, Utf8.Encode, Trim, PlainText;
    LongPageFacts();
  }

  /** A page address of 711 bytes grows to 2111 when it is normalised: the builder signs it, the verifier drops
      it and refuses the URL. */
  lemma OutgrownRefererIsRefused(path: string, input: string, secret: string, vod: bool)
    requires ProxyPath(path) && secret != "" && Trim(secret) == secret
    ensures var lib, raw := LongPageLib(), LongPage();
      && ParserOk(lib) && |Utf8.Encode(raw)| <= MAX_REFERER_BYTES && NormalizeHlsReferer(lib, raw).Some?
      && !IsSignedLiveHlsRequest(lib, secret, BuiltUrl(lib, path, input, Some(raw), secret, vod))
  {
    hide LongPage, LongPageParsed, Utf8.Encode, BuiltUrl, IsSignedLiveHlsRequest, Message, Trim;
    var lib, raw := LongPageLib(), LongPage();
    LongPageFacts();
    LongPageIsNormalised();
    var signed := NormalizeReferer(lib, Some(raw));
    BuiltUrlAdmittedWhenTagsMatch(lib, path, input, Some(raw), secret, vod);
    NormalizingAgain(lib, Some(raw));
    MessageShowsReferer(NormalizeSignatureInput(lib, input), None, signed);
  }

  /** Printable ASCII without quote and comma. */
  predicate UrlSafe(s: string) { forall c | c in s :: 0x21 <= c as int < 0x7f && c != '"' && c != ',' }

  lemma ValueIsSafe(value: string)
    ensures UrlSafe(FormUrl.EncodeValue(value))
  {
    FormUrl.EncodedIsSafe(Utf8.Encode(value));
  }

  lemma AppendedIsSafe(name: string, value: string)
    requires IsName(name)
    ensures UrlSafe(Appended(name, value))
  {
    ValueIsSafe(value);
    assert UrlSafe(name) && UrlSafe("&" + name + "=");
  }

  lemma UrlTextIsSafe(n: Names, path: string, input: string, referer: Option<string>, signature: Option<string>)
    requires NamesOk(n) && UrlSafe(path)
    ensures UrlSafe(UrlText(n, path, input, referer, signature))
    ensures path <= UrlText(n, path, input, referer, signature)
  {
    ValueIsSafe(input);
    var first := path + "?" + (n.input + "=" + FormUrl.EncodeValue(input));
    assert UrlSafe(first) && path <= first;
    var second := if referer.Some? then first + Appended(n.referer, referer.value) else first;
    if referer.Some? { AppendedIsSafe(n.referer, referer.value); }
    assert UrlSafe(second) && path <= second;
    if signature.Some? {
      AppendedIsSafe(n.signature, signature.value);
      var third := second + ("&" + n.trusted + "=" + n.on);
      assert UrlSafe(n.trusted) && UrlSafe(n.on) && UrlSafe(third) && path <= third;
    }
  }

  /** A built URL can stand between quotes in an attribute list and on a line of its own. */
  lemma BuiltUrlCharacters(lib: Lib, path: string, input: string, referer: Option<string>, secret: Option<string>)
    requires ProxyPath(path)
    ensures UrlSafe(LiveHlsProxyUrl(lib, path, input, referer, secret))
    ensures path <= LiveHlsProxyUrl(lib, path, input, referer, secret)
  {
    NamesAreOk();
    var i := if secret.Some? then NormalizeSignatureInput(lib, input) else input;
    var r := NormalizeReferer(lib, referer);
    UrlTextIsSafe(NAMES, path, i, r,
                  if secret.Some? && Trim(secret.value) != "" then Some(Sign(lib, i, r, Trim(secret.value))) else None);
  }
}
