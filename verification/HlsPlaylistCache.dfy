/** The playlist rewriter as a whole and the cache in front of it: `rewrite_live_hls_playlist`,
    `LiveHlsPlaylistCache` and the playlist handler of src/live.rs. */
module HlsPlaylistCache {
  import opened Text
  import opened HlsLines
  import opened SignedUrl
  import opened HlsUri
  import opened HlsAttributes
  import opened HlsMedia
  import opened HlsWindow
  import opened HlsVod
  import opened HlsTrust
  import opened HlsMaster

  // ---------------------------------------------------------------------------
  // The rewriter
  // ---------------------------------------------------------------------------

  ghost function Rewritten(c: Context, f: Floats, playlist: string): string {
    var lines := Lines(playlist);
    match BranchOf(lines)
    case Master => Unlines(MasterLines(c, Offered(c, lines)))
    case Vod => Unlines(VodLines(c, lines))
    case Rolling => RollingText(c, f, lines)
    case Other => playlist
  }

  /** `rewrite_live_hls_playlist` */
  method RewriteLiveHlsPlaylist(c: Context, f: Floats, playlist: string) returns (text: string)
    ensures text == Rewritten(c, f, playlist)
  {
    hide Offered, MasterLines, VodLines, Read, Served, Unlines, Lines;
    var lines := Lines(playlist);
    match BranchOf(lines)
    case Master => text := RewriteMaster(c, lines);
    case Vod => text := RewriteVod(c, lines);
    case Rolling => text := RewriteRolling(c, f, lines);
    case Other => text := playlist;
  }

  // ---------------------------------------------------------------------------
  // Which of the URIs a served playlist names a player can fetch
  // ---------------------------------------------------------------------------

  /** What is asked of the upstream playlist: the lines that are rewritten are sound, and where the rewriter
      passes lines through, everything they name is fetchable as it stands. */
  ghost predicate SoundUpstream(c: Context, playlist: string)
    requires c.secret.Some?
  {
    var lines := Lines(playlist);
    match BranchOf(lines)
    case Master => MasterSound(c, Offered(c, lines))
    case Vod => AllSound(c, VodResource, lines)
    case Rolling =>
      if ReadText(playlist).segments == [] then FetchableAsIs(c, lines)
      else AllSound(c, Resource, ServedFrom(ReadText(playlist)))
    case Other => FetchableAsIs(c, lines)
  }

  ghost predicate RegularUpstream(c: Context, playlist: string) {
    var lines := Lines(playlist);
    match BranchOf(lines)
    case Master => MasterRegular(c, Offered(c, lines))
    case Vod => AllRegular(c, VodResource, lines)
    case Rolling => AllRegular(c, Resource, ServedFrom(ReadText(playlist)))
    case Other => true
  }

  /** Every URL in the text that is returned for a trusted playlist of any kind is admitted or direct exactly
      if the upstream playlist is sound; only direct URLs can make it irregular. */
  lemma FetchableExactly(c: Context, f: Floats, playlist: string)
    requires Trusted(c) && PrintsDigits(f) && RegularUpstream(c, playlist)
    ensures AllFetchable(c, Lines(Rewritten(c, f, playlist))) <==> SoundUpstream(c, playlist)
  {
    hide BranchOf, Lines, Unlines, AllFetchable, AllSound, MasterSound, AllRegular, MasterRegular, Offered,
        ServedFrom, VodLines,
         MasterLines, RollingText, FetchableAsIs, ReadText;
    match BranchOf(Lines(playlist))
    case Master => MasterFetchableExactly(c, playlist);
    case Vod => VodFetchableExactly(c, playlist);
    case Rolling => RollingFetchableExactly(c, f, playlist);
    case Other => PassedFetchable(c, Lines(playlist));
  }

  const MAP_NAME := "#EXT-X-MAP"

  lemma MapReads(v: string)
    requires '"' !in v
    ensures ChildOf(TagText(MAP_NAME, "", v, "")) == Some(v)
  {
    hide ChildOf, TagText;
    assert |MAP_NAME| == 10 && MAP_NAME[..4] == TAG;
    NothingCut();
    ReadPlace(MAP_NAME, "", v, "");
  }

  lemma MapShape(v: string)
    requires '\n' !in v
    ensures var line := TagText(MAP_NAME, "", v, "");
      MAP_NAME <= line && TrimEnd(line) == line && '\n' !in line && '"' in line
  {
    var line := TagText(MAP_NAME, "", v, "");
    assert line == MAP_NAME + ":" + URI_MARK + v + "\"";
    assert line[|line| - 1] == '"';
    EndIsFixed(line);
    ConcatAvoids(MAP_NAME + ":" + URI_MARK, v, "\"", '\n');
  }

  lemma MapTests(line: string)
    requires MAP_NAME <= line && TrimEnd(line) == line && '\n' !in line && '"' in line
    ensures TagLine(line) && !IsStreamInf(line) && !IsExtinf(line) && !IsVodMark(line) && !StartsWith(line, STREAM_INF)
  {
    hide SameIgnoringCase;
    assert |MAP_NAME| == 10 && MAP_NAME[0] == '#' && MAP_NAME[4] == '-' && MAP_NAME[7] == 'M' && MAP_NAME[8] == 'A';
    assert line[0] == MAP_NAME[0] && line[4] == MAP_NAME[4] && line[7] == MAP_NAME[7] && line[8] == MAP_NAME[8];
    OneCharPrefix(line, '#');
    HashStartsTrimmed(line);
    MarksHaveNoQuote(line);
    assert STREAM_INF[7] == 'S' && EXTINF[4] == 'I' && MEDIA_SEQUENCE[8] == 'E' && ENDLIST[7] == 'E';
    NotPrefix(STREAM_INF, line, 7);
    NotPrefix(EXTINF, line, 4);
    NotPrefix(MEDIA_SEQUENCE, line, 8);
    NotPrefix(ENDLIST, line, 7);
  }

  lemma ExtinfLine(extinf: string)
    requires extinf == "#EXTINF:4,"
    ensures TagLine(extinf) && IsExtinf(extinf) && !IsStreamInf(extinf) && !IsVodMark(extinf)
  {
    hide IsStreamInf, IsExtinf, IsVodMark;
    ExtinfFacts(extinf);
    LineTests(extinf);
    assert |extinf| == 10 && extinf[4] == 'I' && '\n' !in extinf;
    assert MEDIA_SEQUENCE[4] == '-' && ENDLIST[4] == '-';
    NotPrefix(MEDIA_SEQUENCE, extinf, 4);
    NotPrefix(ENDLIST, extinf, 4);
    ExtinfNoVod(extinf);
  }

  lemma ExtinfNoVod(extinf: string)
    requires IsExtinf(extinf)
    ensures !IsVodMark(extinf)
  {
    LineTests(extinf);
  }

  lemma WaitingReads(extinf: string, init: string)
    requires TagLine(extinf) && TagLine(init)
    ensures Lines(Unlines([extinf, init])) == [extinf, init] && Read([extinf, init]).segments == []
  {
    hide TagLine, Lines, Unlines, SegmentTag, Select;
    var lines := [extinf, init];
    assert TagLines(lines);
    TidyTags(lines);
    TidyLines(lines);
    ReadTags(NOTHING, lines);
  }

  lemma WaitingBranch(extinf: string, init: string)
    requires IsExtinf(extinf) && !IsStreamInf(extinf) && !IsVodMark(extinf) && !IsStreamInf(init) && !IsVodMark(init)
    ensures BranchOf([extinf, init]) == Rolling
  {
    hide IsStreamInf, IsExtinf, IsVodMark;
    assert [extinf, init][0] == extinf;
  }

  /** As long as no segment has arrived, an initialisation segment is named as it stands upstream. */
  lemma WaitingMapIsPassed(c: Context, f: Floats, v: string)
    requires '"' !in v && '\n' !in v
    ensures var playlist := Unlines(["#EXTINF:4,", TagText(MAP_NAME, "", v, "")]);
            BranchOf(Lines(playlist)) == Rolling && Rewritten(c, f, playlist) == playlist
                && AnyNames(Lines(playlist), v)
  {
    hide IsStreamInf, IsExtinf, IsVodMark, ChildOf, TagText, TagLine, Lines, Unlines, BranchOf, Read;
    var init := TagText(MAP_NAME, "", v, "");
    MapReads(v);
    MapShape(v);
    MapTests(init);
    ExtinfLine("#EXTINF:4,");
    WaitingReads("#EXTINF:4,", init);
    WaitingBranch("#EXTINF:4,", init);
    assert init != "" by { assert '"' in init; }
    assert NamedBy(init) == Some(v) && ["#EXTINF:4,", init][1] == init;
  }

  // ---------------------------------------------------------------------------
  // The cache
  // ---------------------------------------------------------------------------

  const TTL_MS := 120_000
  const MAX_ENTRIES := 24

  datatype CachedPlaylist = CachedPlaylist(body: string, storedAtMs: int)

  type Entries = map<string, CachedPlaylist>

  predicate IsFresh(e: CachedPlaylist, now: int) { now - e.storedAtMs <= TTL_MS }

  function Lookup(entries: Entries, key: string, now: int): Option<string> {
    if key in entries && IsFresh(entries[key], now) then Some(entries[key].body) else None
  }

  function Pruned(entries: Entries, now: int): Entries {
    map key | key in entries && IsFresh(entries[key], now) :: entries[key]
  }

  /** Over the limit the stale entries go, and if that is not enough, all of them. */
  function Limited(entries: Entries, now: int): Entries {
    if |entries| <= MAX_ENTRIES then entries
    else if |Pruned(entries, now)| <= MAX_ENTRIES then Pruned(entries, now) else map[]
  }

  /** The clock is read once for the new entry and once for the retention. */
  function Stored(entries: Entries, key: string, body: string, storedAt: int, now: int): Entries {
    Limited(entries[key := CachedPlaylist(body, storedAt)], now)
  }

  class LiveHlsPlaylistCache {
    var entries: Entries

    constructor ()
      ensures entries == map[]
    {
      entries := map[];
    }

    method GetFresh(key: string, now: int) returns (body: Option<string>)
      ensures body == Lookup(entries, key, now)
    {
      if key !in entries {
        return None;
      }
      if now - entries[key].storedAtMs > TTL_MS {
        return None;
      }
      return Some(entries[key].body);
    }

    method Store(key: string, body: string, storedAt: int, now: int)
      modifies this
      ensures entries == Stored(old(entries), key, body, storedAt, now)
      ensures |entries| <= 24
    {
      entries := entries[key := CachedPlaylist(body, storedAt)];
      if |entries| > MAX_ENTRIES {
        entries := Pruned(entries, now);
        if |entries| > MAX_ENTRIES {
          entries := map[];
        }
      }
    }

    method Prune(now: int)
      modifies this
      ensures entries == Pruned(old(entries), now)
    {
      entries := Pruned(entries, now);
    }
  }

  /** Storing makes nothing up: what is in the table afterwards is the new entry or was there. */
  lemma StoredEntries(entries: Entries, key: string, body: string, storedAt: int, now: int, k: string)
    requires k in Stored(entries, key, body, storedAt, now)
    ensures (Stored(entries, key, body, storedAt, now)[k] == CachedPlaylist(body, storedAt) && k == key)
         || (k in entries && k != key && Stored(entries, key, body, storedAt, now)[k] == entries[k])
  {
  }

  // ---------------------------------------------------------------------------
  // The cache key
  // ---------------------------------------------------------------------------

  datatype Request = Request(source: string, referer: Option<string>, trusted: bool, direct: bool)

  function Flag(b: bool): char { if b then '1' else '0' }

  function RefererText(referer: Option<string>): string {
    match referer case Some(text) => text case None => ""
  }

  /** `live_hls_playlist_cache_key` */
  function CacheKey(r: Request): string {
    r.source + "|" + RefererText(r.referer) + ['|', Flag(r.trusted), '|', Flag(r.direct)]
  }

  lemma SameEnd(a: string, b: string, s: string, t: string)
    requires |s| == |t|
    ensures a + s == b + t <==> a == b && s == t
  {
    if a + s == b + t {
      assert (a + s)[..|a|] == a && (b + t)[..|b|] == b;
      assert (a + s)[|a|..] == s && (b + t)[|b|..] == t;
    }
  }

  /** Two requests share a key exactly when their flags agree and so do source and referer with a bar
      between them. */
  lemma SameKeyExactly(a: Request, b: Request)
    ensures CacheKey(a) == CacheKey(b) <==>
              a.source + "|" + RefererText(a.referer) == b.source + "|" + RefererText(b.referer)
              && a.trusted == b.trusted && a.direct == b.direct
  {
    var s, t := ['|', Flag(a.trusted), '|', Flag(a.direct)], ['|', Flag(b.trusted), '|', Flag(b.direct)];
    SameEnd(a.source + "|" + RefererText(a.referer), b.source + "|" + RefererText(b.referer), s, t);
    assert s == t ==> s[1] == t[1] && s[3] == t[3];
  }

  /** A request the key can tell apart: no bar in the source URL, no referer that is empty (the request
      parser yields none). */
  predicate Plain(r: Request) { '|' !in r.source && r.referer != Some("") }

  lemma KeyIsInjective(a: Request, b: Request)
    requires Plain(a) && Plain(b) && CacheKey(a) == CacheKey(b)
    ensures a == b
  {
    SameKeyExactly(a, b);
    IndexOfCharAt(a.source, RefererText(a.referer), '|');
    IndexOfCharAt(b.source, RefererText(b.referer), '|');
    var s := a.source + "|" + RefererText(a.referer);
    assert s == a.source + ['|'] + RefererText(a.referer) && s == b.source + ['|'] + RefererText(b.referer);
    assert s[..|a.source|] == a.source && s[|a.source| + 1..] == RefererText(a.referer);
    assert s[..|b.source|] == b.source && s[|b.source| + 1..] == RefererText(b.referer);
  }

  /** With a bar in a source URL two different requests share a key. */
  lemma BarCollides(page: string, mid: string, last: string, trusted: bool, direct: bool)
    ensures CacheKey(Request(page + "|" + mid, Some(last), trusted, direct))
         == CacheKey(Request(page, Some(mid + "|" + last), trusted, direct))
  {
    assert page + "|" + mid + "|" + last == page + "|" + (mid + "|" + last);
  }

  // ---------------------------------------------------------------------------
  // The handler
  // ---------------------------------------------------------------------------

  /** What the upstream fetch yields. */
  datatype Fetched = Failed(error: string) | Page(finalUrl: Url, body: string)

  datatype Response = Failure(error: string) | Success(body: string, cacheControl: string)

  const PUBLIC := "public, max-age=300"
  const NO_STORE := "no-store"

  /** How a request is rewritten on this server. */
  datatype Server = Server(context: (Request, Url) -> Context, floats: Floats)

  predicate Cacheable(r: Request, playlist: string) {
    r.trusted && BranchOf(Lines(playlist)) in {Master, Vod}
  }

  /** The handler without the cache. */
  ghost function Uncached(s: Server, r: Request, fetched: Fetched): Response {
    match fetched
    case Failed(error) => Failure(error)
    case Page(finalUrl, body) =>
      Success(Rewritten(s.context(r, finalUrl), s.floats, body), if Cacheable(r, body) then PUBLIC else NO_STORE)
  }

  /** A request with what its fetch would yield and the clock as it is read, or the sweep. */
  datatype Event = Handle(request: Request, fetched: Fetched, now: int, storedAt: int, storedNow: int) | Sweep(at: int)

  ghost function Answer(s: Server, entries: Entries, e: Event): Response
    requires e.Handle?
  {
    match Lookup(entries, CacheKey(e.request), e.now)
    case Some(body) => Success(body, PUBLIC)
    case None => Uncached(s, e.request, e.fetched)
  }

  ghost function After(s: Server, entries: Entries, e: Event): Entries {
    match e
    case Sweep(at) => Pruned(entries, at)
    case Handle(r, fetched, now, storedAt, storedNow) =>
      if Lookup(entries, CacheKey(r), now).None? && fetched.Page? && Cacheable(r, fetched.body)
      then Stored(entries, CacheKey(r), Uncached(s, r, fetched).body, storedAt, storedNow)
      else entries
  }

  /** `live_hls_handler`, with the fetch as an argument. */
  method LiveHlsHandler(cache: LiveHlsPlaylistCache, s: Server, r: Request, fetched: Fetched, now: int, storedAt: int,
                        storedNow: int) returns (response: Response)
    modifies cache
    ensures var e := Handle(r, fetched, now, storedAt, storedNow);
      response == Answer(s, old(cache.entries), e) && cache.entries == After(s, old(cache.entries), e)
  {
    hide Rewritten, CacheKey, Stored, BranchOf, Lines;
    var key := CacheKey(r);
    var cached := cache.GetFresh(key, now);
    if cached.Some? {
      return Success(cached.value, PUBLIC);
    }
    match fetched
    case Failed(error) =>
      return Failure(error);
    case Page(finalUrl, body) =>
      var immutable := IsImmutable(body);
      immutable := r.trusted && immutable;
      var rewritten := RewriteLiveHlsPlaylist(s.context(r, finalUrl), s.floats, body);
      if immutable {
        cache.Store(key, rewritten, storedAt, storedNow);
        return Success(rewritten, PUBLIC);
      }
      return Success(rewritten, NO_STORE);
  }

  // ---------------------------------------------------------------------------
  // Every run
  // ---------------------------------------------------------------------------

  /** The table after a run that starts with an empty one. */
  ghost function TableAfter(s: Server, events: seq<Event>): Entries {
    if events == [] then map[] else After(s, TableAfter(s, events[..|events| - 1]), events[|events| - 1])
  }

  /** The answer to event `i` of a run. */
  ghost function AnswerTo(s: Server, events: seq<Event>, i: nat): Response
    requires i < |events| && events[i].Handle?
  {
    Answer(s, TableAfter(s, events[..i]), events[i])
  }

  /** Event `j` put this entry under this key. */
  ghost predicate Put(s: Server, events: seq<Event>, j: nat, key: string, entry: CachedPlaylist) {
    && j < |events| && events[j].Handle? && CacheKey(events[j].request) == key && events[j].storedAt == entry.storedAtMs
    && Uncached(s, events[j].request, events[j].fetched) == Success(entry.body, PUBLIC)
  }

  /** Each entry is a response that the uncached handler gave to a request with that key. */
  lemma {:induction false} EntriesWerePut(s: Server, events: seq<Event>, key: string) returns (j: nat)
    requires key in TableAfter(s, events)
    ensures Put(s, events, j, key, TableAfter(s, events)[key])
    decreases |events|
  {
    hide CacheKey, Cacheable, Stored, Rewritten;
    var n := |events| - 1;
    var front, e := events[..n], events[n];
    var before := TableAfter(s, front);
    if key in before && TableAfter(s, events)[key] == before[key] {
      j := EntriesWerePut(s, front, key);
      assert events[j] == front[j];
    } else {
      j := n;
      PutNow(s, before, e, key);
    }
  }

  lemma PutNow(s: Server, before: Entries, e: Event, key: string)
    requires key in After(s, before, e) && !(key in before && After(s, before, e)[key] == before[key])
    ensures e.Handle? && CacheKey(e.request) == key && e.storedAt == After(s, before, e)[key].storedAtMs
    ensures Uncached(s, e.request, e.fetched) == Success(After(s, before, e)[key].body, PUBLIC)
  {
    hide CacheKey, Rewritten, BranchOf, Lines;
    if e.Handle? && Lookup(before, CacheKey(e.request), e.now).None? && e.fetched.Page?
        && Cacheable(e.request, e.fetched.body) {
      StoredEntries(before, CacheKey(e.request), Uncached(s, e.request, e.fetched).body, e.storedAt, e.storedNow, key);
    }
  }

  /** Over every run, sweeps included, each answer is what the uncached handler gives to the same
      request, either now or at an earlier event stored at most two minutes before. */
  lemma AnswersAreRecent(s: Server, events: seq<Event>, i: nat) returns (j: nat)
    requires i < |events| && events[i].Handle? && forall e | e in events && e.Handle? :: Plain(e.request)
    ensures j <= i && events[j].Handle? && events[j].request == events[i].request
    ensures AnswerTo(s, events, i) == Uncached(s, events[j].request, events[j].fetched)
    ensures j == i || events[i].now - events[j].storedAt <= 120_000
  {
    hide CacheKey, Uncached, Plain;
    var before, key := TableAfter(s, events[..i]), CacheKey(events[i].request);
    j := i;
    if Lookup(before, key, events[i].now).Some? {
      j := EntriesWerePut(s, events[..i], key);
      assert events[j] == events[..i][j];
      assert events[j] in events && events[i] in events;
      KeyIsInjective(events[j].request, events[i].request);
    }
  }

  /** When the upstream answers a request always the same, the cache is invisible: bodies and cache
      headers are those of the handler without it. */
  lemma CacheIsInvisible(s: Server, upstream: Request -> Fetched, events: seq<Event>, i: nat)
    requires i < |events| && events[i].Handle?
    requires forall e | e in events && e.Handle? :: Plain(e.request) && e.fetched == upstream(e.request)
    ensures AnswerTo(s, events, i) == Uncached(s, events[i].request, upstream(events[i].request))
  {
    hide AnswerTo, Uncached, Plain;
    var j := AnswersAreRecent(s, events, i);
    assert events[j] in events && events[i] in events;
  }

  /** With a bar in a source URL it is not: the second of two requests that share a key gets the
      playlist of the first. */
  lemma BarServesWrongPlaylist(s: Server, a: Request, b: Request, first: Fetched, second: Fetched)
    requires CacheKey(a) == CacheKey(b) && first.Page? && Cacheable(a, first.body)
    ensures AnswerTo(s, [Handle(a, first, 0, 0, 0), Handle(b, second, 1, 1, 1)], 1) == Uncached(s, a, first)
  {
    hide CacheKey, Rewritten, BranchOf, Lines;
    var events := [Handle(a, first, 0, 0, 0), Handle(b, second, 1, 1, 1)];
    assert events[..1] == [events[0]] && [events[0]][..0] == [];
    assert TableAfter(s, []) == map[];
    var stored := map[CacheKey(a) := CachedPlaylist(Uncached(s, a, first).body, 0)];
    assert TableAfter(s, events[..1]) == stored by {
      assert |stored| == 1;
    }
  }

  /** The table never holds more than 24 playlists after a request that stores one. */
  lemma TableIsBounded(s: Server, events: seq<Event>)
    ensures |TableAfter(s, events)| <= 24
    decreases |events|
  {
    hide CacheKey, Uncached, Cacheable;
    if events != [] {
      var front := events[..|events| - 1];
      TableIsBounded(s, front);
      PrunedIsSmaller(TableAfter(s, front), if events[|front|].Sweep? then events[|front|].at else 0);
    }
  }

  lemma PrunedIsSmaller(entries: Entries, now: int)
    ensures |Pruned(entries, now)| <= |entries|
  {
    SubsetIsSmaller(Pruned(entries, now).Keys, entries.Keys);
    assert |Pruned(entries, now)| == |Pruned(entries, now).Keys| && |entries| == |entries.Keys|;
  }

  lemma {:induction false} SubsetIsSmaller(a: set<string>, b: set<string>)
    requires a <= b
    ensures |a| <= |b|
    decreases |a|
  {
    if x :| x in a {
      SubsetIsSmaller(a - {x}, b - {x});
    }
  }

  // ---------------------------------------------------------------------------
  // What is never cached
  // ---------------------------------------------------------------------------

  /** A playlist that will not change: a master, or segments with an end mark or the VOD type. */
  ghost predicate Unchanging(playlist: string) {
    var lines := Lines(playlist);
    || (exists line | line in lines :: StartsWith(TrimStart(line), "#EXT-X-STREAM-INF"))
    || ((exists line | line in lines :: StartsWith(TrimStart(line), "#EXTINF"))
        && exists line | line in lines :: EndMark(line))
  }

  /** The end mark or the VOD type, in any case and with blanks around it. */
  predicate EndMark(line: string) {
    || ToLower(Trim(line)) == ToLower("#EXT-X-ENDLIST")
    || ToLower(Trim(line)) == ToLower("#EXT-X-PLAYLIST-TYPE:VOD")
  }

  /** An answer to this request may be stored. */
  ghost predicate MayBeStored(r: Request, fetched: Fetched) {
    r.trusted && fetched.Page? && Unchanging(fetched.body)
  }

  lemma CacheableExactly(r: Request, playlist: string)
    ensures Cacheable(r, playlist) <==> r.trusted && Unchanging(playlist)
  {
    hide ToLower, TrimStart, Trim, Lines;
    forall line | line in Lines(playlist)
      ensures IsStreamInf(line) <==> StartsWith(TrimStart(line), "#EXT-X-STREAM-INF")
      ensures IsExtinf(line) <==> StartsWith(TrimStart(line), "#EXTINF")
      ensures IsVodMark(line) <==> EndMark(line)
    {
    }
  }

  /** How a playlist is rewritten depends on its tags alone: variants make it a master, segments a VOD playlist
      with an end mark and a rolling one without, and text with neither is passed through. */
  lemma BranchesAre(c: Context, f: Floats, playlist: string)
    ensures var lines := Lines(playlist);
            var variants := exists line | line in lines :: StartsWith(TrimStart(line), "#EXT-X-STREAM-INF");
            var segments := exists line | line in lines :: StartsWith(TrimStart(line), "#EXTINF");
            Rewritten(c, f, playlist)
            == if variants then Unlines(MasterLines(c, Offered(c, lines)))
               else if !segments then playlist
               else if Unchanging(playlist) then Unlines(VodLines(c, lines)) else RollingText(c, f, lines)
  {
    hide MasterLines, VodLines, RollingText, Offered, Unlines, BranchOf, Unchanging;
    BranchIs(playlist);
  }

  lemma BranchIs(playlist: string)
    ensures var lines := Lines(playlist);
            var variants := exists line | line in lines :: StartsWith(TrimStart(line), "#EXT-X-STREAM-INF");
            var segments := exists line | line in lines :: StartsWith(TrimStart(line), "#EXTINF");
            BranchOf(lines) == if variants then Master else if !segments then Other
                               else if Unchanging(playlist) then Vod else Rolling
  {
    hide ToLower, TrimStart, Trim, Lines;
    var lines := Lines(playlist);
    assert (exists line | line in lines :: IsStreamInf(line))
      <==> exists line | line in lines :: StartsWith(TrimStart(line), "#EXT-X-STREAM-INF");
    assert (exists line | line in lines :: IsExtinf(line))
      <==> exists line | line in lines :: StartsWith(TrimStart(line), "#EXTINF");
    assert (exists line | line in lines :: IsVodMark(line)) <==> exists line | line in lines :: EndMark(line);
  }

  /** The answer of the handler when nothing is cached: the rewritten playlist, marked public exactly if it
      may be stored. */
  ghost function OwnAnswer(s: Server, e: Event): Response
    requires e.Handle?
  {
    match e.fetched
    case Failed(error) => Failure(error)
    case Page(finalUrl, body) =>
      Success(Rewritten(s.context(e.request, finalUrl), s.floats, body),
              if MayBeStored(e.request, e.fetched) then "public, max-age=300" else "no-store")
  }

  lemma OwnAnswerIs(s: Server, e: Event)
    requires e.Handle?
    ensures Uncached(s, e.request, e.fetched) == OwnAnswer(s, e)
  {
    hide Rewritten, Cacheable, Unchanging;
    if e.fetched.Page? { CacheableExactly(e.request, e.fetched.body); }
  }

  /** Only a trusted request whose fetched playlist will not change is stored; any other leaves the table as
      it is, or was answered from it. */
  lemma OnlyUnchangingIsStored(s: Server, entries: Entries, e: Event)
    requires e.Handle? && !MayBeStored(e.request, e.fetched)
    ensures After(s, entries, e) == entries
    ensures Lookup(entries, CacheKey(e.request), e.now).None? ==>
              Answer(s, entries, e) == OwnAnswer(s, e)
                  && (e.fetched.Page? ==> Answer(s, entries, e).cacheControl == "no-store")
  {
    hide Rewritten, Cacheable, Unchanging, CacheKey, Uncached;
    OwnAnswerIs(s, e);
    if e.fetched.Page? { CacheableExactly(e.request, e.fetched.body); }
  }

  /** And such a request is stored, as long as the table has room, and answered as public. */
  lemma UnchangingIsStored(s: Server, entries: Entries, e: Event)
    requires e.Handle? && MayBeStored(e.request, e.fetched) && Lookup(entries, CacheKey(e.request), e.now).None?
    ensures Answer(s, entries, e) == OwnAnswer(s, e) && Answer(s, entries, e).cacheControl == "public, max-age=300"
    ensures |entries| < 24 ==>
              After(s, entries, e) == entries[CacheKey(e.request) := CachedPlaylist(OwnAnswer(s, e).body, e.storedAt)]
  {
    hide Rewritten, Cacheable, Unchanging, CacheKey, Uncached;
    OwnAnswerIs(s, e);
    CacheableExactly(e.request, e.fetched.body);
    InsertedSize(entries, CacheKey(e.request), CachedPlaylist(OwnAnswer(s, e).body, e.storedAt));
  }

  lemma InsertedSize(entries: Entries, key: string, entry: CachedPlaylist)
    ensures |entries[key := entry]| <= |entries| + 1
  {
    assert entries[key := entry].Keys == entries.Keys + {key};
  }

  /** No event up to `n` may store anything under `key`. */
  ghost predicate NeverStores(events: seq<Event>, n: nat, key: string)
    requires n <= |events|
  {
    forall j | 0 <= j < n && events[j].Handle? && CacheKey(events[j].request) == key ::
      !MayBeStored(events[j].request, events[j].fetched)
  }

  lemma {:induction false} NothingUnderKey(s: Server, events: seq<Event>, n: nat, key: string)
    requires n <= |events| && NeverStores(events, n, key)
    ensures key !in TableAfter(s, events[..n])
  {
    if n > 0 {
      hide CacheKey, MayBeStored, Uncached, Cacheable, Stored;
      NothingUnderKey(s, events, n - 1, key);
      assert events[..n][..n - 1] == events[..n - 1] && events[..n][n - 1] == events[n - 1];
      KeyStaysAbsent(s, TableAfter(s, events[..n - 1]), events[n - 1], key);
    }
  }

  lemma KeyStaysAbsent(s: Server, entries: Entries, e: Event, key: string)
    requires key !in entries
    requires e.Handle? && CacheKey(e.request) == key ==> !MayBeStored(e.request, e.fetched)
    ensures key !in After(s, entries, e)
  {
    hide CacheKey, MayBeStored, Uncached;
    AddedKeys(s, entries, e);
    if e.Handle? && CacheKey(e.request) == key { OnlyUnchangingIsStored(s, entries, e); }
  }

  lemma AddedKeys(s: Server, entries: Entries, e: Event)
    ensures forall k | k in After(s, entries, e) :: k in entries || (e.Handle? && k == CacheKey(e.request))
  {
    hide CacheKey, Uncached, Cacheable;
  }

  /** Over every run: when all playlists fetched for the requests that share this one's key are live, every
      answer is that of its own fetch, marked no-store, and nothing is kept. */
  lemma LiveIsNeverCached(s: Server, events: seq<Event>, i: nat)
    requires i < |events| && events[i].Handle? && NeverStores(events, i + 1, CacheKey(events[i].request))
    ensures AnswerTo(s, events, i) == OwnAnswer(s, events[i])
    ensures events[i].fetched.Page? ==> AnswerTo(s, events, i).cacheControl == "no-store"
    ensures CacheKey(events[i].request) !in TableAfter(s, events[..i + 1])
  {
    hide CacheKey, MayBeStored, Uncached, TableAfter;
    NothingUnderKey(s, events, i, CacheKey(events[i].request));
    NothingUnderKey(s, events, i + 1, CacheKey(events[i].request));
    OnlyUnchangingIsStored(s, TableAfter(s, events[..i]), events[i]);
  }

  /** An untrusted request is never answered from the cache, whatever else the run does. */
  lemma UntrustedIsNeverCached(s: Server, events: seq<Event>, i: nat)
    requires i < |events| && events[i].Handle? && !events[i].request.trusted
    ensures AnswerTo(s, events, i) == OwnAnswer(s, events[i])
    ensures events[i].fetched.Page? ==> AnswerTo(s, events, i).cacheControl == "no-store"
    ensures CacheKey(events[i].request) !in TableAfter(s, events[..i + 1])
  {
    hide CacheKey, AnswerTo, Unchanging, TableAfter;
    forall j | 0 <= j < i + 1 && events[j].Handle? && CacheKey(events[j].request) == CacheKey(events[i].request)
      ensures !MayBeStored(events[j].request, events[j].fetched)
    {
      SameKeyExactly(events[j].request, events[i].request);
    }
    LiveIsNeverCached(s, events, i);
  }

  // ---------------------------------------------------------------------------
  // What is served from the cache
  // ---------------------------------------------------------------------------

  /** An event looks at the clock no more than two minutes after `storedAt`. */
  predicate Soon(e: Event, storedAt: int) {
    match e
    case Sweep(at) => at - storedAt <= 120_000
    case Handle(_, _, now, _, storedNow) => now - storedAt <= 120_000 && storedNow - storedAt <= 120_000
  }

  function Recent(entries: Entries, now: int): set<string> {
    set key | key in entries && now - entries[key].storedAtMs <= 120_000
  }

  /** Fewer than 24 playlists are recent when an event makes room; older ones do not count. */
  predicate HasRoom(entries: Entries, e: Event) { e.Handle? ==> |Recent(entries, e.storedNow)| < 24 }

  lemma PrunedSize(entries: Entries, key: string, entry: CachedPlaylist, now: int)
    ensures |Pruned(entries[key := entry], now)| <= |Recent(entries, now)| + 1
  {
    SubsetIsSmaller(Pruned(entries[key := entry], now).Keys, Recent(entries, now) + {key});
    assert |Pruned(entries[key := entry], now)| == |Pruned(entries[key := entry], now).Keys|;
  }

  /** A recent entry outlives any event while there is room for recent ones. */
  lemma EntryStays(s: Server, entries: Entries, e: Event, key: string)
    requires key in entries && HasRoom(entries, e) && Soon(e, entries[key].storedAtMs)
    ensures key in After(s, entries, e) && After(s, entries, e)[key] == entries[key]
  {
    hide CacheKey, Uncached, Cacheable;
    if e.Handle? && e.fetched.Page? {
      PageSucceeds(s, e.request, e.fetched);
      PrunedSize(entries, CacheKey(e.request), CachedPlaylist(Uncached(s, e.request, e.fetched).body, e.storedAt),
                 e.storedNow);
    }
  }

  lemma PageSucceeds(s: Server, r: Request, fetched: Fetched)
    requires fetched.Page?
    ensures Uncached(s, r, fetched).Success?
  {
  }

  lemma TableStep(s: Server, events: seq<Event>, i: nat)
    requires i < |events|
    ensures TableAfter(s, events[..i + 1]) == After(s, TableAfter(s, events[..i]), events[i])
  {
    hide After;
    assert events[..i + 1][..i] == events[..i] && events[..i + 1][i] == events[i];
  }

  lemma {:induction false} EntryLasts(s: Server, events: seq<Event>, j: nat, i: nat, key: string, entry: CachedPlaylist)
    requires j <= i <= |events| && key in TableAfter(s, events[..j]) && TableAfter(s, events[..j])[key] == entry
    requires forall k | j <= k < i ::
               HasRoom(TableAfter(s, events[..k]), events[k]) && Soon(events[k], entry.storedAtMs)
    ensures key in TableAfter(s, events[..i]) && TableAfter(s, events[..i])[key] == entry
    decreases i
  {
    hide After, TableAfter, CacheKey, HasRoom, Soon;
    if j < i {
      EntryLasts(s, events, j, i - 1, key, entry);
      TableStep(s, events, i - 1);
      EntryStays(s, TableAfter(s, events[..i - 1]), events[i - 1], key);
    }
  }

  /** What was stored is served, without regard to the upstream: for two minutes, while there is room for what is
      recent, every request with the key gets the playlist that was rewritten when it was stored. */
  lemma StoredIsServed(s: Server, events: seq<Event>, j: nat, i: nat)
    requires j < i < |events| && events[j].Handle? && events[i].Handle?
    requires CacheKey(events[j].request) == CacheKey(events[i].request)
    requires MayBeStored(events[j].request, events[j].fetched)
    requires Lookup(TableAfter(s, events[..j]), CacheKey(events[j].request), events[j].now).None?
    requires |TableAfter(s, events[..j])| < 24
    requires forall k | j < k < i :: HasRoom(TableAfter(s, events[..k]), events[k])
    requires forall k | j < k <= i :: Soon(events[k], events[j].storedAt)
    ensures OwnAnswer(s, events[j]).Success?
    ensures AnswerTo(s, events, i) == Success(OwnAnswer(s, events[j]).body, "public, max-age=300")
  {
    hide CacheKey, MayBeStored, Uncached, After, OwnAnswer, TableAfter, HasRoom;
    var key := CacheKey(events[j].request);
    StoredIsPage(s, events[j]);
    var entry := CachedPlaylist(OwnAnswer(s, events[j]).body, events[j].storedAt);
    TableStep(s, events, j);
    UnchangingIsStored(s, TableAfter(s, events[..j]), events[j]);
    assert TableAfter(s, events[..j + 1])[key] == entry;
    EntryLasts(s, events, j + 1, i, key, entry);
  }

  lemma StoredIsPage(s: Server, e: Event)
    requires e.Handle? && MayBeStored(e.request, e.fetched)
    ensures OwnAnswer(s, e).Success?
  {
  }
}
