# StreamArena: a verification model

StreamArena is a media server written in Rust. Most of it moves bytes between upstream sites and players; this
project models the parts that carry invariants and proves them in Dafny 4.11. `dafny verify dfyconfig.toml`
checks the whole project.

The modules follow the source files.

| modules | source | subject |
|---|---|---|
| `ResolveTables`, `ResolveProtocol` | `src/football.rs` | the cache that shares stream resolves between tasks |
| `Utf8`, `Base64Url`, `FormUrl`, `SignedUrl` | `src/live.rs` | signed proxy URLs, their builder and their verifier |
| `HlsLines`, `HlsUri`, `HlsAttributes` | `src/live.rs` | lines and branches of a playlist, the URL that stands in for an upstream URI, and the attribute list around it |
| `HlsMedia`, `HlsWindow`, `HlsVod`, `HlsPlayer`, `HlsTrust` | `src/live.rs` | media playlists: the rewriter's reading and the player's, rolling window, VOD rewrite, admission of children |
| `HlsCap`, `HlsCodecs`, `HlsMaster` | `src/live.rs` | master playlists: quality cap, attribute lists, rewrite |
| `HlsPlaylistCache` | `src/live.rs` | the rewriter as a whole, the playlist cache and the handler |
| `Calendar` | `src/football.rs`, `src/home_bootstrap.rs` | day numbers, dates and their text |
| `QuotaEviction` | `src/local_torrent.rs` | eviction from the torrent cache and admission to it |
| `RateLimit` | `src/rate_limit.rs` | the sliding-window limiter |
| `HomeBootstrap` | `src/home_bootstrap.rs` | the home page payload and its background refresh |
| `LibraryText`, `LibraryNormaliser`, `LibraryReading`, `LibraryFile` | `src/library.rs` | the normaliser, what it makes of raw entries, and the file protocol of the local library |
| `TmdbKey` | `src/tmdb.rs` | the canonical response cache key |
| `Text`, `Decimal`, `StableSort` | several | Rust string operations, decimal text, stable sorting |

Conventions. Objects with fields that change are classes whose methods are proved against functions of the old
state; loops of the source are loops here. Protocols are state machines: a datatype of steps, a predicate that says
when a step may happen, a function for the next state, and theorems over every run. The clock is an input. Foreign
code is a parameter, with what the proofs use of it written as a predicate: the URL parser (`SignedUrl.ParserOk`,
`HlsUri.ContextOk`), HMAC (an arbitrary function; `SignedUrl.TagsAreUnique` only where stated), parsing and printing of
floats (`HlsMedia.PrintsDigits`), Unicode lower-casing (`LibraryText.LowerOk`), JSON (`LibraryFile.CodecOk`).

Where the code does not do what its comments or its design promise, the code is modelled as it is and the exact
condition is proved; each line names the lemma with the condition and, where there is one, the lemma with an input
that fails:

- `unix_days_from_civil` is commented as the inverse of `civil_from_unix_days`. It is on every day from 0000-03-01 on and
  on the last day of each earlier 400-year era; on all other days the trip ends one day late (`Calendar.InverseExactly`).
- Dates are compared as text. Past 9999-12-31 the release filter refuses every such day and compares an earlier day's year
  with the first four digits of today's (`Calendar.PastLastPrintableDayExactly`, `Calendar.FirstLongYearFails`).
- The quality cap is commented to skip comments between a dropped variant and its URI. It forgets the variant instead,
  and the URI stays behind as an orphan (`HlsCap.NoOrphansExactly`, `HlsCap.CommentOrphansUri`).
- The rewriter puts the first `URI="` of a tag in order, wherever it stands. The player gets its URI rewritten exactly
  when that is the name of the attribute (`HlsAttributes.RewrittenTagChild`): an earlier name such as X-A-URI is
  rewritten instead (`HlsAttributes.EarlierNameIsRewritten`), and a quoted value that ends in `URI=` costs the player its
  URI (`HlsAttributes.QuotedUriIsLost`).
- A direct URL is written between quotes as it is; a player reads it up to its first quote
  (`HlsAttributes.ReachedExactly`, `HlsAttributes.QuotedHostIsCut`).
- A playlist that is passed through, because it is of no known kind or no segment has arrived yet, names its URIs as they
  stand upstream, which no signature covers (`HlsPlaylistCache.FetchableExactly`, `HlsPlaylistCache.WaitingMapIsPassed`).
- The rolling window takes only some tags for segment tags. Once it drops segments, EXT-X-BYTERANGE and EXT-X-DATERANGE
  from ahead of the first segment are served ahead of another (`HlsPlayer.FirstTagsExactly`, `HlsPlayer.ByteRangeMoves`).
- A key or initialisation segment that is named once, ahead of the first segment, goes with that segment
  (`HlsPlayer.InEffectExactly`, `HlsPlayer.KeyIsLost`).
- The media sequence number is an i64, a decimal-integer of RFC 8216 goes to 2^64-1
  (`HlsPlayer.KeepsSequenceNumbers`).
- The playlist cache key separates its parts by a bar, which a URL may contain (`HlsPlaylistCache.SameKeyExactly`,
  `HlsPlaylistCache.BarCollides`, `HlsPlaylistCache.BarServesWrongPlaylist`).
- A VOD mark that is indented counts for caching, but the rewriter takes it for a URI
  (`HlsTrust.VodStaysVodExactly`, `HlsTrust.IndentedMarkIsLost`).
- Removing CODECS twice is not always removing it once (`HlsCodecs.RemovalIsIdempotentExactly`,
  `HlsCodecs.RemovalTwiceDiffers`).
- The limit on a referer is checked before it is normalised, and again by the verifier: a URL whose referer outgrew it in
  between is refused under the very secret it was signed with (`SignedUrl.BuiltUrlAdmittedExactly`,
  `SignedUrl.OutgrownRefererIsRefused`).
- Bytes in the cache directory outside hash-named folders are not seen by eviction, which then stops too early
  (`QuotaEviction.FittingIsRefusedExactly`, `QuotaEviction.LooseBytesRefuse`).
- A refresh whose database read fails takes the row for absent. That is harmless while the row shows nothing
  (`HomeBootstrap.RailsNeverGoBlank`); for every row that shows anything there is a run in which the page goes blank
  (`HomeBootstrap.FailedReadBlanksExactly`).
- A fallback episode number is not clamped, so a thousandth episode is stored as 1000 and read back as 999
  (`LibraryNormaliser.ReadAfterWriteExactly`, `LibraryNormaliser.ThousandthEpisodeChanges`).
- A request that is dropped while its rename is under way gives the lock back before the rename happens. The file stays
  what the operations that took effect produce exactly if every such rename finds what it brings already there
  (`LibraryFile.EqualsSerialExactly`); otherwise a later write is lost (`LibraryFile.DroppedRenameLosesUpdate`).
- The language of a request is part of its cache key but not of the query that is sent, so requests that send the same
  query need not share a response (`TmdbKey.SameKeyExactly`, `TmdbKey.SameQueryExactly`,
  `TmdbKey.LanguageSplitsEqualQueries`).

## Model

| member | source | states |
|---|---|---|
| ResolveTables.TrimTable | src/football.rs:504-520 | trimming leaves a table that fits alone, and otherwise exactly 512 entries none of which is older than one that went |
| ResolveTables.NewerThanAnotherSurvives | src/football.rs:451-461 | an entry just inserted survives its own trim whenever any other entry is older |
| ResolveTables.SportsStreamResolveCache.constructor | src/football.rs:431-442 | a new cache is empty and has all its permits |
| ResolveTables.SportsStreamResolveCache.Fresh | src/football.rs:444-449 | a success is returned exactly until its expiry, inclusively |
| ResolveTables.SportsStreamResolveCache.FreshFailure | src/football.rs:463-468 | a failure is returned exactly until its expiry, inclusively |
| ResolveTables.SportsStreamResolveCache.Insert | src/football.rs:451-461 | the new entry with its expiry is in the table before the trim, and nothing but the trim removes entries |
| ResolveTables.SportsStreamResolveCache.InsertFailure | src/football.rs:470-480 | the same for failures |
| ResolveTables.SportsStreamResolveCache.LockFor | src/football.rs:482-487 | a key keeps its mutex, and a key without one gets a mutex no other key has |
| ResolveTables.SportsStreamResolveCache.Prune | src/football.rs:540-545 | a sweep forgets expired entries and deletes exactly the locks nobody else refers to |
| ResolveProtocol.SingleFlight | src/football.rs:2330-2404 | in every run with sweeps and cancellations, all references to a key's lock are to the mutex in the table, and at most one task per key is past it |
| ResolveProtocol.PermitsConserved | src/football.rs:489-502 | permits available plus permits held is always max_concurrent |
| ResolveProtocol.NeverFreshBothWays | src/football.rs:2335-2404 | a key never has a fresh success and a fresh failure at once |
| ResolveProtocol.NoUpstreamWhileCached | src/football.rs:2355-2376 | no uncached resolve starts or is under way while a success or failure is fresh for its key |
| ResolveProtocol.OneUpstreamPerTtl | src/football.rs:2374-2386 | after a recorded success the next uncached resolve for the key waits out the time to live, unless a trim evicted the entry |
| ResolveProtocol.OneUpstreamPerFailure | src/football.rs:2387-2403 | after a recorded failure, stamped t, the next uncached resolve for the key comes only after t + 45 s, unless a trim evicted the entry |
| ResolveProtocol.SuccessAnswers | src/football.rs:2335-2369 | until then each look at the success table answers with the recorded stream, under the caller's own candidate index |
| ResolveProtocol.FailureAnswers | src/football.rs:2344-2369 | and after a recorded failure each look at the failure table answers that very message |
| ResolveProtocol.OnlyRecordingAdds | src/football.rs:2374-2403 | busy errors, permit timeouts, cancellations and cached answers leave both tables as they are, up to forgetting |
| ResolveProtocol.AnswersAreResolved | src/football.rs:2330-2404 | every stream an answer carries was resolved upstream for that key in the same run and has the caller's own candidate index; a caller that resolved upstream itself gets what its own resolve returned |
| ResolveProtocol.RefusalsAreExplained | src/football.rs:2344-2403 | of every other answer in any run: a cached failure was recorded for that key earlier, an error is what its own resolve returned, a refusal is a timeout for a permit or a busy upstream, and only cancelled tasks are dropped |
| ResolveProtocol.OwnOutcomeIsAnswered | src/football.rs:2376-2403 | a task that resolved upstream and has an answer got the outcome of its own resolve: the stream, the error or the refusal |
| ResolveProtocol.NoDeadlock | src/football.rs:2354-2376 | while some task is not done, some task can take a step of its own |
| ResolveProtocol.NothingLeaks | src/football.rs:2354-2404 | when all tasks are done or cancelled, all permits are back, no mutex is locked and the next sweep may delete every lock |
| ResolveProtocol.CachedCall | src/football.rs:2335-2342 | step by step, a call that nothing disturbs and that finds a fresh success is over after one look |
| ResolveProtocol.CachedFailureCall | src/football.rs:2344-2351 | one that finds a fresh failure, after a second |
| ResolveProtocol.UndisturbedCall | src/football.rs:2353-2404 | one that finds neither can run to the end: it resolves upstream, records the outcome with its time to live, answers it, and leaves nothing behind but the mutex of its key in the table |
| Utf8.RoundTrip | src/live.rs:1638-1651 | decoding the UTF-8 bytes of a text gives the text |
| Base64Url.RoundTrip | src/live.rs:1650-1662 | decoding an encoded tag gives the tag (section 5 of RFC 4648, no padding) |
| Base64Url.Canonical | src/live.rs:1659-1662 | a tag has one text: whatever decodes is what would have been encoded |
| Base64Url.AlphabetIs | src/live.rs:1650 | the alphabet is that of table 2 of RFC 4648 |
| Base64Url.GroupIsNumber | src/live.rs:1650 | four characters show the 24 bits of three bytes, highest first (section 4 of RFC 4648) |
| FormUrl.PairsRoundTrip | src/live.rs:932-936 | parsing a serialised query gives its pairs (sections 5.1 and 5.2 of the WHATWG URL Standard) |
| SignedUrl.BuiltUrlAdmittedWhenTagsMatch | src/live.rs:217-244 | the verifier reads back the normalised upstream URL, and admits exactly when the two tags agree |
| SignedUrl.BuiltUrlAdmitted | src/live.rs:1517-1545 | under a secret without outer blanks and a referer that fits, every built URL is admitted, with the VOD mark or without, and names exactly the normalised upstream URL |
| SignedUrl.BuiltQuery | src/live.rs:1517-1545 | everything a built URL says once its query is parsed: path, upstream URL, page, and under a secret the mark of trust and the tag over both |
| SignedUrl.AdmittedExactly | src/live.rs:217-244 | a request is admitted exactly if it is for one of the two handlers, a secret is set, and its query bears the mark of trust and, up to blanks, the tag of the URL and page it names |
| SignedUrl.RefererExactly | src/live.rs:990-1007 | a page is sent along exactly if it is an http or https URL with a host, of at most 2048 bytes and without control characters, and then as the URL parser writes it |
| SignedUrl.SignedBytes | src/live.rs:1638-1649 | the text under a tag is a label, the URL and the page, kept apart by zero bytes |
| SignedUrl.BuiltUrlAdmittedExactly | src/live.rs:217-244 | with an ideal hash, only then |
| SignedUrl.OutgrownRefererIsRefused | src/live.rs:990-1007 | a page address of 711 bytes that normalises to 2111 gets its own signed URL refused |
| SignedUrl.SignatureBindsExactly | src/live.rs:238-243 | with an ideal hash, a request that carries the tag of a URL and a referer is admitted exactly when it names that URL and, normalised, that referer |
| SignedUrl.OtherSecretRefused | src/live.rs:1653-1670 | with an ideal hash a URL signed under one secret is refused under any other |
| SignedUrl.NormalizingAgain | src/live.rs:990-1007 | normalising a referer twice is doing it once, or drops it when it outgrew 2048 bytes |
| SignedUrl.BuiltUrlCharacters | src/live.rs:1517-1545 | a built URL is printable ASCII without quotes and commas and starts with its path |
| HlsUri.ChildAdmitted | src/live.rs:1491-1545 | every URL that stands in for an upstream URI of a trusted playlist is direct, or is admitted and names exactly that URI |
| HlsUri.ChildExactly | src/live.rs:1086-1100 | a URI stays exactly if it is blank or does not resolve; a URL on a host a browser may fetch from stands for itself where that is wanted; every other leads to one of the handlers and names the URL the trimmed URI resolves to |
| HlsUri.ChildSays | src/live.rs:2130-2172 | a proxied child leads to the handler for its kind, carries the page unless that is of vidlink.pro and the child is a media resource on another host than the playlist, and is marked VOD exactly for VOD resources |
| HlsUri.AttributeStays | src/live.rs:2174-2202 | replacing a quoted text by one without quotes leaves it where the rewriter found it |
| HlsAttributes.ReachedExactly | src/live.rs:2188-2201 | where the first mark is the player's attribute, the player reads what was put there up to its first quote: all of it exactly if it has none |
| HlsAttributes.RewrittenTagIs | src/live.rs:2174-2202 | which URI a player takes from a rewritten tag: the rewritten one, the upstream one, or that of a later attribute when the name was written over |
| HlsAttributes.RewrittenTagChild | src/live.rs:2174-2202 | it takes the rewritten one exactly when no earlier attribute name or quoted value ends in URI=, or there is nothing to rewrite |
| HlsAttributes.ProxiedInsertsCleanly | src/live.rs:1517-1545 | a proxied URL never breaks the attribute list it is put into |
| HlsAttributes.EarlierNameIsRewritten | src/live.rs:2183-2187 | an earlier attribute such as X-A-URI is rewritten in place of the URI |
| HlsAttributes.QuotedHostIsCut | src/live.rs:1086-1100 | a direct URL with a quote is read up to the quote |
| HlsAttributes.QuotedUriIsLost | src/live.rs:2183-2187 | a quoted value that ends in URI= costs the player its URI |
| HlsUri.RewrittenTagName | src/live.rs:2174-2202 | rewriting neither makes nor loses a tag name |
| HlsLines.LinesOfUnlines | src/live.rs:1685 | splitting joined lines gives the lines, up to carriage returns and an empty last line |
| HlsLines.IsImmutable | src/live.rs:644-661 | a playlist is classed immutable exactly when the rewriter takes its master or its VOD branch |
| HlsMedia.RewriteRolling | src/live.rs:1942-2070 | the one-pass loop serves what is assembled from all lines once they are sorted: header, start hint, new media sequence, last blocks |
| HlsMedia.Assemble | src/live.rs:2034-2069 | EXTM3U is there, the start hint follows the header, the number is raised by the dropped segments |
| HlsWindow.ReadServedText | src/live.rs:1942-2070 | sorting the served text again gives back the parts it was assembled from |
| HlsPlayer.JointReading | src/live.rs:1957-2027 | how the player's reading (section 4.3.2 of RFC 8216) of any lines relates to the rewriter's |
| HlsPlayer.KeepsLastSegments | src/live.rs:2042-2069 | a player reads exactly the last min(n, 8) segments, in order, with rewritten URIs, and each but the first with its own tags |
| HlsPlayer.HeaderComesFirst | src/live.rs:2034-2036 | the served text starts with the rewritten upstream header, behind EXTM3U if that was missing |
| HlsPlayer.CountsDuration | src/live.rs:1966-1972 | a segment counts with the number between the colon and the first comma of its last EXTINF, or with none |
| HlsPlayer.StartHintExactly | src/live.rs:2042-2069 | line by line the served text is header, hint, number and segments, and the hint prints half of what the last min(n, 8) upstream segments last by their EXTINF tags, at most 18 |
| HlsPlayer.HintThereExactly | src/live.rs:2048-2061 | the start hint is there exactly if they last four seconds or more |
| HlsPlayer.OddWindows | src/live.rs:2055-2061 | durations that add up to NaN or infinity give the hint of a long window |
| HlsPlayer.FirstTagsExactly | src/live.rs:1972-1979 | the first served segment has its own tags exactly if nothing was dropped or neither EXT-X-BYTERANGE nor EXT-X-DATERANGE stood ahead of the first segment |
| HlsPlayer.ByteRangeMoves | src/live.rs:1972-1979 | of nine segments behind a byte range, the second is served with the byte range of the first |
| HlsPlayer.InEffectExactly | src/live.rs:2042-2069 | a served segment keeps its key and its initialisation section exactly if a tag for it is among the kept segments up to it or none stood ahead of the window |
| HlsPlayer.KeyIsLost | src/live.rs:2042-2069 | nine segments behind one key are served without it |
| HlsPlayer.KeepsSequenceNumbers | src/live.rs:2062-2066 | each served segment has the media sequence number it had upstream (sections 4.2 and 4.3.3.2 of RFC 8216), if and only if that of the first one fits an i64 |
| HlsPlayer.RefreshesAgree | src/live.rs:2042-2069 | when two fetches of a stream agree on which segment has which number, so do the playlists served for them, as long as numbers and first tags are kept |
| HlsPlayer.VodKeepsEverything | src/live.rs:2073-2124 | a player of a rewritten VOD playlist reads the same segments, tags and numbers, with only the URIs rewritten |
| HlsWindow.StartOffsetFits | src/live.rs:2048-2061 | a start hint lies between 2 and 18 seconds and within half the served window unless that is NaN; there is none exactly for windows under four seconds |
| HlsVod.RewriteVod | src/live.rs:2073-2124 | the VOD loop rewrites line by line |
| HlsTrust.VodStaysVodExactly | src/live.rs:1927-1941 | a rewritten VOD playlist is cacheable exactly when an EXTINF and a VOD mark survive the rewrite |
| HlsTrust.VodStaysVod | src/live.rs:1927-1941 | it always is when no tag is indented |
| HlsTrust.IndentedMarkIsLost | src/live.rs:2073-2124 | an indented end mark that resolves is lost, and the playlist reads as a live one |
| HlsTrust.RollingIsNeverCacheable | src/live.rs:1920-2070 | a live playlist never reads as cacheable after the rewrite |
| HlsTrust.RewrittenLineRoute | src/live.rs:2073-2136 | segments and keys lead to the resource handler and are marked VOD exactly in the VOD branch |
| HlsTrust.FoundIsAdmitted | src/live.rs:2073-2136 | a URI that the rewriter finds and that resolves is replaced by a URL that is direct, or is admitted and names exactly what it resolves to |
| HlsTrust.LineFetchableExactly | src/live.rs:2073-2136 | a player can fetch what a rewritten line names exactly if that was found and resolves, or what stays may be fetched as it stands |
| HlsTrust.ProxiedIsRegular | src/live.rs:2174-2202 | without direct URLs no line is left out of this |
| HlsTrust.VodFetchableExactly | src/live.rs:2073-2136 | so with the returned VOD text: every URL in it is admitted or direct exactly if every upstream line is sound |
| HlsTrust.RollingFetchableExactly | src/live.rs:1920-2070 | so with the returned rolling text and the lines that are served, and while no segment has arrived exactly if everything named is fetchable as it stands |
| HlsCap.HeightIsRead | src/live.rs:1716-1725 | the height read from WIDTHxHEIGHT is the number printed there, whatever follows |
| HlsCap.SizedVariantStays | src/live.rs:1716-1781 | a variant that prints WIDTHxHEIGHT stays exactly if the height is at most 1080 or no variant fits |
| HlsCap.CapTo1080p | src/live.rs:1737-1781 | the loop with its flag keeps exactly the lines that stay, each judged by itself and by what it follows |
| HlsCap.CappedKeeps | src/live.rs:1737-1781 | the capped playlist is the lines that are kept, in order, and those are all when no variant fits |
| HlsCap.PairStaysTogetherExactly | src/live.rs:1752-1778 | a variant is kept exactly when it fits or none does, its URI moreover when anything but I-frame tags stands between |
| HlsCap.PairsStayTogetherExactly | src/live.rs:1752-1778 | so pairs stay together exactly when no variant fits or no tall one stands apart from its URI |
| HlsCap.NoOrphansExactly | src/live.rs:1770-1777 | where every variant has its URI, a player of the capped playlist finds no new orphan exactly when no variant fits or no tall one stands apart |
| HlsCap.CommentOrphansUri | src/live.rs:1770-1777 | with a comment between, the URI of a dropped variant is left as an orphan |
| HlsCap.CapFiltersLadder | src/live.rs:1737-1781 | where every variant has its URI and some variant fits, a player reads exactly the variants of at most 1080 lines or unknown height, in order, paired |
| HlsCap.CapIsIdempotent | src/live.rs:1737-1781 | capping twice is capping once, on every input |
| HlsCap.UnchangedExactly | src/live.rs:1739-1748 | the cap changes nothing exactly when nothing is too tall or no variant fits |
| HlsCap.VariantsKept | src/live.rs:1739-1748 | a ladder is never emptied: fitting variants stay, and all stay when none fits |
| HlsCodecs.SplitAttributes | src/live.rs:1892-1907 | the loop with its quote flag computes the split |
| HlsCodecs.SplitJoins | src/live.rs:1892-1907 | no attribute is cut inside quotes, and joining the split gives the list back up to one bare comma at the end |
| HlsCodecs.JoinSplits | src/live.rs:1892-1907 | and it is the only such split: attributes put together are taken apart again |
| HlsCodecs.RemoveStreamInfCodecs | src/live.rs:1888-1918 | the method removes the CODECS attributes after the first colon |
| HlsCodecs.CodecsNamed | src/live.rs:1908-1913 | the attributes that go are those whose name, behind any blanks and in any case, is CODECS |
| HlsCodecs.KeepsOtherAttributes | src/live.rs:1908-1917 | every other attribute stays, whole and in order, except an empty one at the end |
| HlsCodecs.RemovalIsIdempotentExactly | src/live.rs:1888-1918 | removing twice is removing once, exactly unless several attributes stay and the last is empty |
| HlsCodecs.RemovalTwiceDiffers | src/live.rs:1888-1918 | an empty attribute ahead of CODECS makes it differ |
| HlsMaster.RewriteMaster | src/live.rs:1783-1862 | the master loop rewrites the capped or uncapped lines one by one |
| HlsMaster.MasterFetchableExactly | src/live.rs:1783-1862 | so with the returned master text and the lines that are offered |
| HlsMaster.MasterLineRoute | src/live.rs:1812-1852 | variants, renditions and I-frame streams lead to the playlist handler, other tags' URIs to the resource handler |
| HlsMaster.OffersFittingVariants | src/live.rs:1783-1862 | end to end, a player of the returned text is offered exactly the fitting upstream variants, or all when none fits or the stream is not capped, in order, each with its own rewritten URI |
| HlsMaster.StripsExactly | src/live.rs:1871-1886 | a variant tag loses its CODECS, and nothing else but an empty attribute at its end, exactly if it declares codecs and names none of the seven for audio; else it stays character by character |
| HlsMaster.OfferedCodecsExactly | src/live.rs:1783-1886 | so for every variant a player of the returned text is offered |
| HlsPlaylistCache.RewriteLiveHlsPlaylist | src/live.rs:1678-1712 | each branch is taken for its kind of playlist, anything else is passed through |
| HlsPlaylistCache.BranchesAre | src/live.rs:1678-1712 | told by its tags alone, how a playlist is rewritten: variants make a master, segments with an end mark a VOD playlist, without one a rolling one, and text with neither is passed through |
| HlsPlaylistCache.FetchableExactly | src/live.rs:1678-1712 | whatever the kind of a trusted playlist, every URL in the returned text is admitted or direct exactly if the upstream playlist is sound for that kind |
| HlsPlaylistCache.WaitingMapIsPassed | src/live.rs:2030-2032 | before the first segment an initialisation section is named as it stands upstream |
| HlsPlaylistCache.LiveHlsPlaylistCache.constructor | src/live.rs:588-592 | a new cache is empty |
| HlsPlaylistCache.LiveHlsPlaylistCache.GetFresh | src/live.rs:594-600 | an entry is served for two minutes, inclusively |
| HlsPlaylistCache.LiveHlsPlaylistCache.Store | src/live.rs:602-618 | the entry is stored, stale entries go over the limit, then all; never more than 24 stay |
| HlsPlaylistCache.LiveHlsPlaylistCache.Prune | src/live.rs:620-624 | a sweep drops stale entries only |
| HlsPlaylistCache.SameKeyExactly | src/live.rs:630-638 | when two requests share a key |
| HlsPlaylistCache.KeyIsInjective | src/live.rs:630-638 | requests without a bar in the source URL share a key only when they are equal |
| HlsPlaylistCache.BarCollides | src/live.rs:630-638 | with a bar, different requests share one |
| HlsPlaylistCache.LiveHlsHandler | src/live.rs:101-147 | the handler answers from the cache or rewrites, and stores trusted immutable playlists only |
| HlsPlaylistCache.CacheableExactly | src/live.rs:121-122 | an answer may be cached exactly if the request is trusted and the fetched playlist has variants, or segments and an end mark |
| HlsPlaylistCache.OnlyUnchangingIsStored | src/live.rs:136-147 | any other answer leaves the table as it is and is marked no-store |
| HlsPlaylistCache.UnchangingIsStored | src/live.rs:136-147 | such an answer is marked public and stored |
| HlsPlaylistCache.StoredIsServed | src/live.rs:114-116 | once stored in a table with room, a playlist answers every request with its key for two minutes, while fewer than 24 are that recent, whatever the upstream would say |
| HlsPlaylistCache.LiveIsNeverCached | src/live.rs:101-147 | over every run in which all playlists fetched under a key are live, every answer is that of its own fetch, marked no-store, and nothing is kept under the key |
| HlsPlaylistCache.UntrustedIsNeverCached | src/live.rs:101-147 | an untrusted request is never answered from the cache nor stored, whatever the run |
| HlsPlaylistCache.AnswersAreRecent | src/live.rs:101-147 | over every run each answer is the uncached one, of now or of an earlier fetch of the same request stored at most two minutes before |
| HlsPlaylistCache.CacheIsInvisible | src/live.rs:101-147 | with constant upstream answers the cached handler gives the bodies and cache headers of the uncached one |
| HlsPlaylistCache.BarServesWrongPlaylist | src/live.rs:101-147 | two requests that share a key get the same playlist |
| HlsPlaylistCache.TableIsBounded | src/live.rs:602-618 | in every run the table holds at most 24 playlists |
| Calendar.UnixDaysCountsCalendarDays | src/football.rs:1961-1968 | the next date has the next day number and 1970-01-01 has 0, in every year, negative ones included |
| Calendar.CivilInvertsUnixDays | src/home_bootstrap.rs:742-756 | every valid date from 0000-03-01 on is recovered from its day number |
| Calendar.CivilRefinesWalk | src/home_bootstrap.rs:742-756 | the closed form is the date reached by walking day by day |
| Calendar.InverseExactly | src/home_bootstrap.rs:742-756 | where exactly the two functions are inverse, and by how much they miss elsewhere |
| Calendar.FormattedDatesCompare | src/home_bootstrap.rs:737-740 | formatted dates are ordered as text like the dates |
| Calendar.ReleasedIsDayOrder | src/home_bootstrap.rs:524-535 | the release test on formatted days is the order of the days, from 0000-03-01 to 9999-12-31 |
| Calendar.FormattedDaySays | src/home_bootstrap.rs:737-740 | a formatted day is YYYY-MM-DD with the year, month and day of its date |
| Calendar.ReleasedExactly | src/home_bootstrap.rs:524-535 | any text counts as a released date exactly if, without outer blanks, it is YYYY-MM-DD with numbers no later than today's, a day of the calendar or not |
| Calendar.PastLastPrintableDayExactly | src/home_bootstrap.rs:524-535 | once a day past 9999-12-31 is involved, the release test is right exactly when the tested day is past it and still to come, or before it and of a year at most the first four digits of today's |
| Calendar.FirstLongYearFails | src/home_bootstrap.rs:524-535 | on 10000-01-01 it is wrong for everything released after the year 1000 |
| RateLimit.RateLimiter.constructor | src/rate_limit.rs:17-26 | the limits are the arguments, at least 1 each, and nothing is remembered |
| RateLimit.RateLimiter.CheckAndRecord | src/rate_limit.rs:30-44 | the answer and the new table are those of the specification functions |
| RateLimit.RateLimiter.Prune | src/rate_limit.rs:47-57 | the in-place sweep leaves each bucket without its expired attempts and no empty bucket |
| RateLimit.ForgettingIsInvisible | src/rate_limit.rs:30-57 | with a clock that does not step back, the answers are those of a limiter that keeps its full history |
| RateLimit.NeverMoreThanMaxHitsPerWindow | src/rate_limit.rs:17-44 | over every run, of the attempts accepted by a limiter made with max_hits and window_ms at most max_hits per key lie in any window (T - window_ms, T]; arguments below 1 count as 1 |
| RateLimit.RefusedOnlyWhenSaturated | src/rate_limit.rs:17-44 | after any run it refuses an attempt exactly when it has accepted max_hits in the last window_ms |
| RateLimit.ClockStepsBackForgets | src/rate_limit.rs:47-57 | with a clock that steps back the sweeps can be noticed |
| QuotaEviction.CacheDir.PruneCache | src/local_torrent.rs:890-939 | the two loops, which keep `total` equal to the bytes on disk, leave exactly the folders of the specification |
| QuotaEviction.CacheDir.EvictOldest | src/local_torrent.rs:923-934 | the second loop evicts in the given order while the bytes on disk exceed the target |
| QuotaEviction.CacheDir.EnsureCacheHasRoom | src/local_torrent.rs:859-888 | room is granted exactly when usage after the prune, less the own folder, plus the request fits |
| QuotaEviction.RulesSay | src/local_torrent.rs:900-916 | a folder is stale thirty days after its last change, and neither open torrents nor the one that asks are ever stale or evicted |
| QuotaEviction.TakesPrefix | src/local_torrent.rs:923-934 | eviction takes a prefix of the order, each folder while too many bytes are on disk, and stops as soon as not |
| QuotaEviction.PruneSpares | src/local_torrent.rs:900-939 | nothing active is removed, no folder is changed, every stale folder that can go goes |
| QuotaEviction.OldestFirst | src/local_torrent.rs:923-934 | a folder that could have gone and stayed is no older than any fresh folder that went |
| QuotaEviction.NoneWithoutNeed | src/local_torrent.rs:920-934 | a fresh folder goes only at a moment when more than the target is on disk |
| QuotaEviction.EvictsForRoomOnly | src/local_torrent.rs:859-934 | told by what the service is asked: a folder that is not stale goes only at a moment when what the download adds to its own folder does not fit the quota beside the folders still there |
| QuotaEviction.AdmittedFits | src/local_torrent.rs:859-888 | whatever fails, room is only granted when the other active torrents, loose bytes and the request fit |
| QuotaEviction.AdmitsExactly | src/local_torrent.rs:859-888 | with only hash-named folders and removals that succeed, exactly then |
| QuotaEviction.RoomExactly | src/local_torrent.rs:859-888 | told by what the service is asked: a download gets its room exactly if it fits the quota together with the folders of the other open torrents |
| QuotaEviction.FittingIsRefusedExactly | src/local_torrent.rs:877-934 | with loose bytes, a request that fits is refused exactly when eviction meets its target, which does not count them, with evictable folders left and the sum still above the quota |
| QuotaEviction.LooseBytesRefuse | src/local_torrent.rs:877-886 | any number of loose bytes can do that |
| HomeBootstrap.BuildCovers | src/home_bootstrap.rs:188-454 | however the fetches go, a build blanks nothing of the payload it falls back on |
| HomeBootstrap.BuildShowsFetched | src/home_bootstrap.rs:188-492 | a rail whose fetch holds a passing title is the first 14 passing titles of that fetch, in order, slimmed and with art, whatever was shown before; it is what it was only if none passes; fetched genres, if any, are the genres |
| HomeBootstrap.FreshRail | src/home_bootstrap.rs:456-492 | a fetched rail has at most 14 titles, each from the fetch and past the quality test |
| HomeBootstrap.HomeBootstrapCache.constructor | src/home_bootstrap.rs:77-79 | nothing is cached and no refresh is under way |
| HomeBootstrap.HomeBootstrapCache.Refresh | src/home_bootstrap.rs:100-132 | a refresh that runs undisturbed stores and persists the build of its fetches on what it falls back on, blanks nothing of that, and frees the flag; a second caller changes nothing |
| HomeBootstrap.UndisturbedRefresh | src/home_bootstrap.rs:100-132 | step by step the protocol does the same |
| HomeBootstrap.HomeBootstrapCache.RestorePersisted | src/home_bootstrap.rs:136-151 | a row is restored only when it is real and nothing is cached, and what is served is what is cached |
| HomeBootstrap.OneRefreshInFlight | src/home_bootstrap.rs:100-132 | in every run, restarts included, at most one refresh runs, and the flag says whether |
| HomeBootstrap.RailsNeverGoBlank | src/home_bootstrap.rs:81-132 | until a restart, a rail or genre list that was shown stays non-empty and refreshed_at does not go back, when database reads fail at most while the row shows nothing |
| HomeBootstrap.PersistedRailsNeverGoBlank | src/home_bootstrap.rs:106-132 | across restarts the same holds of a real database row |
| HomeBootstrap.CachedIsReal | src/home_bootstrap.rs:136-181 | the cached payload is never the warming placeholder and shows everything a real database row shows |
| HomeBootstrap.FailedReadBlanksExactly | src/home_bootstrap.rs:106-118 | a run with a failed read in which everything a visitor saw goes blank, so something does exactly if the row shows anything |
| LibraryText.Slugify | src/library.rs:317-335 | the loop with its dash flag computes the slug |
| LibraryText.SlugIsSlug | src/library.rs:317-335 | a slug is lower-case words joined by single dashes, whatever comes in |
| LibraryText.SlugStays | src/library.rs:317-335 | a slug is its own slug |
| LibraryText.SlugIsRuns | src/library.rs:317-335 | a slug is the runs of ASCII letters and digits of the lower-cased text with single dashes in between, or the fallback if there is none |
| LibraryText.SlugOfWords | src/library.rs:317-335 | words put together with any ASCII punctuation or blanks between and around them have as slug the words in lower case with single dashes |
| LibraryText.NormalizedWords | src/library.rs:307-315 | however much whitespace stands between and around words, they come out with single blanks in between |
| LibraryText.NormalizedIsTidy | src/library.rs:307-315 | normalising whitespace twice is doing it once |
| LibraryNormaliser.MovieStays | src/library.rs:186-210 | a movie whose fields are normalised passes unchanged, field by field |
| LibraryNormaliser.EpisodeReadBack | src/library.rs:263-305 | a normalised episode is read back unchanged wherever it stands, except that a number above 999 is clamped now |
| LibraryNormaliser.SeriesStaysExactly | src/library.rs:212-261 | a normalised series is read back unchanged exactly when no episode number exceeds 999 |
| LibraryNormaliser.ReadsBackExactly | src/library.rs:158-184 | and so is a normalised library |
| LibraryNormaliser.ReadAfterWriteExactly | src/library.rs:106-112 | told from the raw library: exactly unless a titled series has, behind its 999th place, an episode with a source and an explicit number that is not positive |
| LibraryNormaliser.ThousandthEpisodeChanges | src/library.rs:381-386 | a thousand episodes numbered 0 are such a library |
| LibraryReading.TextIs | src/library.rs:397-403 | a string counts as it is, a missing member as empty, anything else by its JSON text without outer quotes |
| LibraryReading.NumberIs | src/library.rs:405-411 | an i64 is read as it is and from its decimal text |
| LibraryReading.MovieCounts | src/library.rs:186-192 | a raw movie is kept exactly if its title and its source hold words |
| LibraryReading.MovieIsRead | src/library.rs:186-210 | and what each of its fields becomes |
| LibraryReading.EpisodeCounts | src/library.rs:263-272 | a raw episode is kept exactly if its source holds words |
| LibraryReading.EpisodeIsRead | src/library.rs:263-305 | and what each of its fields becomes, numbers and default titles included |
| LibraryReading.SeriesCounts | src/library.rs:212-249 | a raw series is kept exactly if its title holds words and one of its episodes is kept |
| LibraryReading.SeriesIsRead | src/library.rs:212-261 | and what each of its fields becomes; its episodes are those that are kept, by season and number, and in the raw order where these agree |
| LibraryReading.LibraryIsRead | src/library.rs:158-184 | a library lists what its kept movies and series become, none left out and in order |
| LibraryFile.LibraryDir.WriteAtomically | src/library.rs:114-144 | the file is wholly new if every call succeeded and untouched otherwise |
| LibraryFile.OperationsDo | src/library.rs:68-112 | what the operations are for: a read answers what the file holds and changes nothing, a mutation starts from what a read would answer and later reads get what it made of it, a write never fails and stores what it answers |
| LibraryFile.EqualsSerialRun | src/library.rs:78-112 | any interleaving equals running the operations that took effect one after another in lock order, answers included, when renames are awaited |
| LibraryFile.EqualsSerialExactly | src/library.rs:78-144 | over any run, tasks dropped anywhere, the file is always what the log produces exactly if every late rename finds what it brings already there |
| LibraryFile.WhollyOldOrNew | src/library.rs:114-144 | over any run, a step leaves the file as it was or a rename replaces it by the complete contents its task made of an earlier file |
| LibraryFile.NeverTorn | src/library.rs:114-144 | so the file is always the one that was found or the complete contents some task made |
| LibraryFile.ReplacesWhatItRead | src/library.rs:78-91 | when renames are awaited, what replaces the file is what the operation that takes effect makes of that very file |
| LibraryFile.UndisturbedOperation | src/library.rs:68-144 | step by step the protocol does what the operation does: whenever the lock is free a new task can run its operation to the end, and file, answer and directory are as if nothing else ran |
| LibraryFile.FailureChangesNothing | src/library.rs:78-91 | a step that lets no operation take effect leaves the file as it was, exactly unless it is a late rename that brings something else |
| LibraryFile.MutualExclusion | src/library.rs:68-91 | over any run, at most one task is between taking the lock and giving it back |
| LibraryFile.DroppedRenameLosesUpdate | src/library.rs:139-142 | a task dropped during its rename can undo a later write |
| LibraryFile.ReadReturnsWritten | src/library.rs:93-112 | what a write answers is what later reads of the file give, exactly when no episode number exceeds 999 |
| TmdbKey.BuildTmdbResponseCacheKey | src/tmdb.rs:305-323 | the loop over the parameters builds the key of the collected map |
| TmdbKey.SameKeyExactly | src/tmdb.rs:305-323 | two requests share a key exactly when their trimmed paths and their non-blank parameters with the language defaulted agree, whatever characters they hold |
| TmdbKey.KeySays | src/tmdb.rs:305-323 | a key speaks of exactly the parameters that are not blank, with their values, and of the language en-US where none is given |
| TmdbKey.SentIsGiven | src/tmdb.rs:88-89 | the query that is sent is the given parameters with language set to en-US |
| TmdbKey.SameQueryExactly | src/tmdb.rs:82-89 | two requests send the same non-blank parameters exactly when these agree up to the language |
| TmdbKey.SameKeySameQuery | src/tmdb.rs:82-89 | requests that share a response send the same query up to blank values |
| TmdbKey.LanguageSplitsEqualQueries | src/tmdb.rs:82-89 | the converse fails on the language alone |

## Left out

- HlsWindow.StartOffsetFits: speaks of the offset before it is printed with three decimals and of exact sums of
  durations; rounding of f64 arithmetic and of the printed text is not modelled.
- HlsPlayer.StartHintExactly: likewise adds durations up exactly, and takes the printing of three decimals as given.
- HlsPlayer.InEffectExactly: takes the last EXT-X-KEY for the one in effect; several keys of different formats for one
  segment, and the discontinuity sequence number, are not modelled.
- HlsPlayer.KeepsSequenceNumbers: says nothing of an upstream media sequence text that is no decimal-integer.
- HlsAttributes.RewrittenTagChild: of direct URLs with a quote, or with a comma where the value stands outside quotes, only
  `HlsAttributes.ReachedExactly` speaks.
- HlsCap.NoOrphansExactly: where some variant has no URI of its own, an orphaned URI can become that variant's.
- HlsMaster.RewriteMaster: without `prefer_english_hls_audio_defaults`, which reorders audio defaults for one provider.
- HlsPlaylistCache.LiveHlsHandler: without response building, gzip and routing to the segment worker; how a request
  becomes the rewriter's surroundings (secret, referer, base URL) is a parameter.
- HlsUri.ChildExactly: which hosts a browser may fetch from directly is a parameter.
- QuotaEviction.CacheDir.PruneCache: a removal that fails is taken to leave its folder whole, folder sizes are taken to
  add up within a u64, and no other process writes to the directory.
- ResolveProtocol.AnswersAreResolved: the uncached resolve is one step with an arbitrary outcome.
- ResolveProtocol.NoDeadlock: is about possibility, not fairness of tokio's mutex and semaphore.
- LibraryNormaliser.SeriesStaysExactly: the in-place episode sort is a function on sequences here; JSON objects are maps
  from the member names the code looks at.
- LibraryFile.EqualsSerialRun: temporary files are told apart by the operation that writes them; two writes of one
  process in the same millisecond would share a name.
- HomeBootstrap.RailsNeverGoBlank: clearing all database caches is not a step of the model, and titles and genres are
  opaque JSON.
- `DashMap` operations are taken as atomic; what an iteration sees while others insert is arbitrary in `ResolveProtocol`.
- The other three `resolve_cached_*` functions of `src/football.rs`: the same protocol around other upstreams.
- The lock table of `src/local_torrent.rs`: the same lock pattern as in `ResolveProtocol`.
- The two-level response cache of `src/tmdb.rs`: an expiring map, as in `HlsPlaylistCache`, in front of a database table.
- Byte ranges and paths of `src/static_files.rs`: case distinctions on one header or path, without state.
- `parse_cdnlivetv_start_ms` and the candidate lists of `src/football.rs`: table lookups around the calendar function.
- The URL parser, HMAC-SHA-256, TLS, HTTP, curl, Playwright and ffmpeg: foreign code.
- Sessions, passwords, email, provider health and configuration: thin wrappers and threshold tables.
