/** The library normaliser of src/library.rs. A library that was normalised and stored has to read back
    unchanged, because reading normalises again. */
module LibraryNormaliser {
  import opened Text
  import opened LibraryText
  import Decimal
  import StableSort

  // ---------------------------------------------------------------------------
  // JSON
  // ---------------------------------------------------------------------------

  /** Member names of JSON objects. */
  datatype Key = Movies | Series | Id | Title | TmdbId | Year | Src | Thumb | Description | UploadedAt | ContentKind
               | PreferredContainer | RequiresLocalEpisodeSources | Episodes
               | SeasonNumber | EpisodeNumber | Other(name: string)

  datatype Value =
    | Null
    | Bool(b: bool)
    | Int(n: int)          // a number that is an i64
    | Float(text: string)  // any other number
    | Str(s: string)
    | Array(items: seq<Value>)
    | Object(fields: map<Key, Value>)

  /** Unicode lower-casing, the JSON text of a value, and the clock. */
  datatype Env = Env(lower: string -> string, display: Value -> string, now: int)

  function Get(fields: map<Key, Value>, key: Key): Option<Value> {
    if key in fields then Some(fields[key]) else None
  }

  function WithoutQuotes(s: string): string {
    if s != "" && s[0] == '"' then WithoutQuotes(s[1..])
    else if s != "" && s[|s| - 1] == '"' then WithoutQuotes(s[..|s| - 1])
    else s
  }

  /** `value_string` */
  function TextOf(env: Env, value: Option<Value>): string {
    match value
    case None => ""
    case Some(Str(s)) => s
    case Some(other) => WithoutQuotes(env.display(other))
  }

  const I64_MIN := -0x8000_0000_0000_0000
  const I64_MAX := 0x7fff_ffff_ffff_ffff

  /** `value_i64` */
  function IntOf(value: Option<Value>): Option<int> {
    match value
    case Some(Int(n)) => Some(n)
    case Some(Str(s)) => Decimal.ParseInt(s, I64_MIN, I64_MAX)
    case _ => None
  }

  function ItemsOf(value: Option<Value>): seq<Value> {
    if value.Some? && value.value.Array? then value.value.items else []
  }

  // ---------------------------------------------------------------------------
  // Entries
  // ---------------------------------------------------------------------------

  datatype Movie = Movie(id: string, title: string, tmdbId: string, year: string, src: string, thumb: string,
                         description: string, uploadedAt: int)

  datatype Episode = Episode(title: string, description: string, thumb: string, src: string, contentKind: string,
                             seasonNumber: int, episodeNumber: int, uploadedAt: int)

  datatype SeriesEntry = SeriesEntry(id: string, title: string, contentKind: string, tmdbId: string, year: string,
                                     preferredContainer: string, requiresLocalEpisodeSources: bool,
                                         episodes: seq<Episode>)

  datatype Library = Library(movies: seq<Movie>, series: seq<SeriesEntry>)

  function MovieJson(m: Movie): Value {
    Object(map[Id := Str(m.id), Title := Str(m.title), TmdbId := Str(m.tmdbId), Year := Str(m.year), Src := Str(m.src),
               Thumb := Str(m.thumb), Description := Str(m.description), UploadedAt := Int(m.uploadedAt)])
  }

  function EpisodeJson(e: Episode): Value {
    Object(map[Title := Str(e.title), Description := Str(e.description), Thumb := Str(e.thumb), Src := Str(e.src),
               ContentKind := Str(e.contentKind), SeasonNumber := Int(e.seasonNumber),
                   EpisodeNumber := Int(e.episodeNumber),
               UploadedAt := Int(e.uploadedAt)])
  }

  function EpisodesJson(es: seq<Episode>): (r: seq<Value>)
    ensures |r| == |es| && forall i | 0 <= i < |es| :: r[i] == EpisodeJson(es[i])
  {
    seq(|es|, i requires 0 <= i < |es| => EpisodeJson(es[i]))
  }

  function SeriesJson(s: SeriesEntry): Value {
    Object(map[Id := Str(s.id), Title := Str(s.title), ContentKind := Str(s.contentKind), TmdbId := Str(s.tmdbId),
               Year := Str(s.year), PreferredContainer := Str(s.preferredContainer),
               RequiresLocalEpisodeSources := Bool(s.requiresLocalEpisodeSources),
                   Episodes := Array(EpisodesJson(s.episodes))])
  }

  /** `serde_json::to_value` */
  function LibraryJson(l: Library): Value {
    Object(map[Movies := Array(seq(|l.movies|, i requires 0 <= i < |l.movies| => MovieJson(l.movies[i]))),
               Series := Array(seq(|l.series|, i requires 0 <= i < |l.series| => SeriesJson(l.series[i])))])
  }

  // ---------------------------------------------------------------------------
  // Fields
  // ---------------------------------------------------------------------------

  function OrElse(s: string, fallback: string): string { if s == "" then fallback else s }

  function TidyText(env: Env, value: Option<Value>): string { NormalizeWhitespace(TextOf(env, value)) }

  /** `normalize_year` */
  function NormalizeYear(s: string): string {
    var text := Trim(s);
    if |text| != 4 || !Decimal.AllDigits(text) then ""
    else if 1888 <= Decimal.DigitsValue(text) <= 2100 then text else ""
  }

  /** `normalize_tmdb_id` */
  function NormalizeTmdbId(s: string): string {
    var trimmed := Trim(s);
    if trimmed != "" && Decimal.AllDigits(trimmed) then trimmed else ""
  }

  const MAX_ORDINAL := 999

  /** `normalize_upload_episode_ordinal`: the fallback is not clamped. */
  function NormalizeOrdinal(value: int, fallback: int): int {
    if value <= 0 then fallback else if value > MAX_ORDINAL then MAX_ORDINAL else value
  }

  const NO_THUMB := "assets/images/thumbnail.jpg"
  const TITLE_FALLBACK := "title"
  const SERIES := "series"
  const COURSE := "course"
  const MP4 := "mp4"

  function OrInt(value: Option<int>, fallback: int): int { if value.Some? then value.value else fallback }

  // ---------------------------------------------------------------------------
  // The normaliser
  // ---------------------------------------------------------------------------

  function NormalMovie(env: Env, value: Value): Option<Movie> {
    if !value.Object? then None
    else
      var f := value.fields;
      var title, src := TidyText(env, Get(f, Title)), TidyText(env, Get(f, Src));
      if title == "" || src == "" then None
      else
        Some(Movie(OrElse(TidyText(env, Get(f, Id)), Slug(env.lower, title, TITLE_FALLBACK)), title,
                   NormalizeTmdbId(TextOf(env, Get(f, TmdbId))), NormalizeYear(TextOf(env, Get(f, Year))), src,
                   OrElse(TidyText(env, Get(f, Thumb)), NO_THUMB), TidyText(env, Get(f, Description)),
                   OrInt(IntOf(Get(f, UploadedAt)), env.now)))
  }

  function EpisodeKind(env: Env, value: Option<Value>, seriesKind: string): string {
    if env.lower(TidyText(env, value)) == COURSE then COURSE else seriesKind
  }

  function EpisodeOrdinal(value: Option<Value>, index: nat): int {
    NormalizeOrdinal(OrInt(IntOf(value), index + 1), index + 1)
  }

  function DefaultTitle(kind: string, number: int): string {
    (if kind == COURSE then "Lesson" else "Episode") + " " + Decimal.IntToString(number)
  }

  /** `normalize_local_series_episode_entry`; `index` is the place in the raw list. */
  function NormalEpisode(env: Env, value: Value, index: nat, seriesKind: string): Option<Episode> {
    if !value.Object? then None
    else
      var f := value.fields;
      var src := TidyText(env, Get(f, Src));
      if src == "" then None
      else
        var kind, number := EpisodeKind(env, Get(f, ContentKind), seriesKind),
            EpisodeOrdinal(Get(f, EpisodeNumber), index);
        Some(Episode(OrElse(TidyText(env, Get(f, Title)), DefaultTitle(kind, number)),
            TidyText(env, Get(f, Description)),
                     OrElse(TidyText(env, Get(f, Thumb)), NO_THUMB), src, kind,
                     NormalizeOrdinal(OrInt(IntOf(Get(f, SeasonNumber)), 1), 1), number,
                     OrInt(IntOf(Get(f, UploadedAt)), env.now)))
  }

  function NormalEpisodes(env: Env, items: seq<Value>, seriesKind: string): seq<Episode> {
    if items == [] then []
    else
      var n := |items| - 1;
      NormalEpisodes(env, items[..n], seriesKind)
      + match NormalEpisode(env, items[n], n, seriesKind) case Some(e) => [e] case None => []
  }

  predicate NotAfter(a: Episode, b: Episode) {
    a.seasonNumber < b.seasonNumber || (a.seasonNumber == b.seasonNumber && a.episodeNumber <= b.episodeNumber)
  }

  function SeriesId(env: Env, f: map<Key, Value>, title: string): string {
    Slug(env.lower, NormalizeWhitespace(OrElse(TextOf(env, Get(f, Id)), title)), SERIES)
  }

  function SeriesKind(env: Env, value: Option<Value>, id: string, title: string): string {
    if env.lower(TidyText(env, value)) == COURSE || Contains(env.lower(id + " " + title), COURSE) then COURSE
        else SERIES
  }

  /** `normalize_local_series_entry` */
  function NormalSeries(env: Env, value: Value): Option<SeriesEntry> {
    if !value.Object? then None
    else
      var f := value.fields;
      var title := TidyText(env, Get(f, Title));
      var id := SeriesId(env, f, title);
      if id == "" || title == "" then None
      else
        var kind := SeriesKind(env, Get(f, ContentKind), id, title);
        var episodes := NormalEpisodes(env, ItemsOf(Get(f, Episodes)), kind);
        if episodes == [] then None
        else
          Some(SeriesEntry(id, title, kind, NormalizeTmdbId(TextOf(env, Get(f, TmdbId))),
              NormalizeYear(TextOf(env, Get(f, Year))),
                           MP4, true, StableSort.Sort(episodes, NotAfter)))
  }

  function NormalMovies(env: Env, items: seq<Value>): seq<Movie> {
    if items == [] then []
    else
      NormalMovies(env, items[..|items| - 1])
      + match NormalMovie(env, items[|items| - 1]) case Some(m) => [m] case None => []
  }

  function NormalSeriesList(env: Env, items: seq<Value>): seq<SeriesEntry> {
    if items == [] then []
    else
      NormalSeriesList(env, items[..|items| - 1])
      + match NormalSeries(env, items[|items| - 1]) case Some(s) => [s] case None => []
  }

  /** `normalize_local_library` */
  function Normalize(env: Env, value: Value): Library {
    var f := if value.Object? then value.fields else map[];
    Library(NormalMovies(env, ItemsOf(Get(f, Movies))), NormalSeriesList(env, ItemsOf(Get(f, Series))))
  }

  // ---------------------------------------------------------------------------
  // Normalised entries
  // ---------------------------------------------------------------------------

  predicate TidyAndGiven(s: string) { Tidy(s) && s != "" }

  /** A number, or nothing. */
  predicate GoodTmdbId(s: string) { Decimal.AllDigits(s) }

  /** A year, printed, from that of the first film on; or nothing. */
  ghost predicate GoodYear(s: string) { s == "" || IsYear(s) }

  ghost predicate IsYear(s: string) { exists n: nat :: 1888 <= n <= 2100 && s == Decimal.NatToString(n) }

  lemma YearExactly(s: string)
    ensures IsYear(s) <==> |s| == 4 && Decimal.AllDigits(s) && 1888 <= Decimal.DigitsValue(s) <= 2100
  {
    hide Decimal.NatToString, Decimal.DigitsValue;
    if |s| == 4 && Decimal.AllDigits(s) && 1888 <= Decimal.DigitsValue(s) <= 2100 {
      var n := Decimal.DigitsValue(s);
      Decimal.DigitCount(n);
      Decimal.DigitsOfNat(n);
      Decimal.LexIsNumeric(s, Decimal.NatToString(n));
    }
    if n: nat :| 1888 <= n <= 2100 && s == Decimal.NatToString(n) {
      Decimal.DigitCount(n);
      Decimal.DigitsOfNat(n);
    }
  }

  lemma DigitsStay(s: string)
    requires Decimal.AllDigits(s)
    ensures Trim(s) == s
  {
    if s != "" { assert s[0] in s && s[|s| - 1] in s; }
    TrimmedIsFixed(s);
  }

  lemma GoodStays(s: string)
    ensures GoodTmdbId(s) ==> NormalizeTmdbId(s) == s
    ensures GoodYear(s) ==> NormalizeYear(s) == s
  {
    hide Decimal.DigitsValue;
    YearExactly(s);
    if Decimal.AllDigits(s) { DigitsStay(s); }
  }

  ghost predicate NormalisedMovie(m: Movie) {
    TidyAndGiven(m.id) && TidyAndGiven(m.title) && TidyAndGiven(m.src) && TidyAndGiven(m.thumb) && Tidy(m.description)
    && GoodTmdbId(m.tmdbId) && GoodYear(m.year)
  }

  predicate NormalisedEpisode(e: Episode, seriesKind: string) {
    TidyAndGiven(e.title) && Tidy(e.description) && TidyAndGiven(e.thumb) && TidyAndGiven(e.src)
    && (e.contentKind == COURSE || e.contentKind == seriesKind) && 1 <= e.seasonNumber <= MAX_ORDINAL
        && 1 <= e.episodeNumber
  }

  lemma FallbacksAreSlugs()
    ensures IsSlug(TITLE_FALLBACK) && IsSlug(SERIES) && IsSlug(COURSE)
  {
  }

  lemma NoThumbIsTidy()
    ensures TidyAndGiven(NO_THUMB)
  {
    WordIsTidy(NO_THUMB);
  }

  lemma TmdbIdIsGood(s: string)
    ensures GoodTmdbId(NormalizeTmdbId(s))
  {
  }

  lemma YearIsGood(s: string)
    ensures GoodYear(NormalizeYear(s))
  {
    YearExactly(Trim(s));
  }

  lemma DefaultTitleIsTidy(kind: string, number: int)
    ensures TidyAndGiven(DefaultTitle(kind, number))
  {
    var digits := Decimal.NatToString(if number < 0 then -number else number);
    assert IsWord(digits) by { assert forall c | c in digits :: IsAsciiDigit(c); }
    var printed := Decimal.IntToString(number);
    assert IsWord(printed) by { assert printed == digits || printed == "-" + digits; }
    TwoWordsAreTidy("Lesson", printed);
    TwoWordsAreTidy("Episode", printed);
  }

  lemma MovieIsNormalised(env: Env, value: Value)
    requires LowerOk(env.lower)
    ensures NormalMovie(env, value).Some? ==> NormalisedMovie(NormalMovie(env, value).value)
  {
    hide NormalizeWhitespace, NormalizeTmdbId, NormalizeYear, GoodTmdbId, GoodYear, Tidy, Slug, TextOf;
    if value.Object? {
      var f := value.fields;
      var title := TidyText(env, Get(f, Title));
      NormalizedIsTidy(TextOf(env, Get(f, Title)));
      NormalizedIsTidy(TextOf(env, Get(f, Src)));
      NormalizedIsTidy(TextOf(env, Get(f, Id)));
      NormalizedIsTidy(TextOf(env, Get(f, Thumb)));
      NormalizedIsTidy(TextOf(env, Get(f, Description)));
      FallbacksAreSlugs();
      SlugIsSlug(env.lower, title, TITLE_FALLBACK);
      SlugStays(env.lower, Slug(env.lower, title, TITLE_FALLBACK), TITLE_FALLBACK);
      NoThumbIsTidy();
      TmdbIdIsGood(TextOf(env, Get(f, TmdbId)));
      YearIsGood(TextOf(env, Get(f, Year)));
    }
  }

  /** A normalised movie is read back as it is. */
  lemma MovieStays(env: Env, m: Movie)
    requires NormalisedMovie(m)
    ensures NormalMovie(env, MovieJson(m)) == Some(m)
  {
    hide NormalizeWhitespace, NormalizeTmdbId, NormalizeYear, Slug, GoodTmdbId, GoodYear;
    GoodStays(m.tmdbId);
    GoodStays(m.year);
  }

  lemma EpisodeIsNormalised(env: Env, value: Value, index: nat, seriesKind: string)
    ensures NormalEpisode(env, value, index, seriesKind).Some? ==>
              NormalisedEpisode(NormalEpisode(env, value, index, seriesKind).value, seriesKind)
  {
    hide NormalizeWhitespace, Tidy, TextOf, DefaultTitle, IntOf;
    if value.Object? {
      var f := value.fields;
      NormalizedIsTidy(TextOf(env, Get(f, Title)));
      NormalizedIsTidy(TextOf(env, Get(f, Src)));
      NormalizedIsTidy(TextOf(env, Get(f, Thumb)));
      NormalizedIsTidy(TextOf(env, Get(f, Description)));
      NoThumbIsTidy();
      DefaultTitleIsTidy(EpisodeKind(env, Get(f, ContentKind), seriesKind),
          EpisodeOrdinal(Get(f, EpisodeNumber), index));
    }
  }

  function Clamped(e: Episode): Episode {
    if e.episodeNumber > MAX_ORDINAL then e.(episodeNumber := MAX_ORDINAL) else e
  }

  lemma SlugIsLower(lower: string -> string, s: string)
    requires LowerOk(lower) && IsSlug(s)
    ensures lower(s) == s
  {
    assert forall c | c in s :: SlugChar(c) && c as int < 0x80 && !IsUpper(c);
    assert forall i | 0 <= i < |s| :: s[i] in s;
    assert ToLower(s) == s;
  }

  lemma KindWordsStay(env: Env)
    requires LowerOk(env.lower)
    ensures env.lower(COURSE) == COURSE && env.lower(SERIES) == SERIES && Tidy(COURSE) && Tidy(SERIES)
            && COURSE != SERIES
  {
    assert COURSE[0] != SERIES[0];
    hide IsSlug, Tidy, Slug, LowerOk;
    FallbacksAreSlugs();
    SlugStays(env.lower, COURSE, SERIES);
    SlugStays(env.lower, SERIES, SERIES);
    SlugIsLower(env.lower, COURSE);
    SlugIsLower(env.lower, SERIES);
  }

  /** A normalised episode is read back as it is, wherever it stands in the list, except that a number
      above 999 is clamped now. */
  lemma EpisodeReadBack(env: Env, e: Episode, index: nat, seriesKind: string)
    requires LowerOk(env.lower) && NormalisedEpisode(e, seriesKind) && (seriesKind == SERIES || seriesKind == COURSE)
    ensures NormalEpisode(env, EpisodeJson(e), index, seriesKind) == Some(Clamped(e))
  {
    hide NormalizeWhitespace, DefaultTitle, LowerOk;
    KindWordsStay(env);
  }

  // ---------------------------------------------------------------------------
  // A series
  // ---------------------------------------------------------------------------

  lemma {:induction false} EpisodesAreNormalised(env: Env, items: seq<Value>, seriesKind: string)
    ensures forall e | e in NormalEpisodes(env, items, seriesKind) :: NormalisedEpisode(e, seriesKind)
  {
    if items != [] {
      hide NormalEpisode, NormalisedEpisode;
      EpisodesAreNormalised(env, items[..|items| - 1], seriesKind);
      EpisodeIsNormalised(env, items[|items| - 1], |items| - 1, seriesKind);
    }
  }

  function ClampedAll(es: seq<Episode>): (r: seq<Episode>)
    ensures |r| == |es| && forall i | 0 <= i < |es| :: r[i] == Clamped(es[i])
  {
    seq(|es|, i requires 0 <= i < |es| => Clamped(es[i]))
  }

  function OneOrNone<T>(x: Option<T>): seq<T> { if x.Some? then [x.value] else [] }

  lemma EpisodesSnoc(env: Env, items: seq<Value>, x: Value, seriesKind: string)
    ensures NormalEpisodes(env, items + [x], seriesKind)
         == NormalEpisodes(env, items, seriesKind) + OneOrNone(NormalEpisode(env, x, |items|, seriesKind))
  {
    hide NormalEpisode;
    assert (items + [x])[..|items|] == items;
  }

  lemma EpisodesJsonSnoc(es: seq<Episode>, e: Episode)
    ensures EpisodesJson(es + [e]) == EpisodesJson(es) + [EpisodeJson(e)]
    ensures ClampedAll(es + [e]) == ClampedAll(es) + [Clamped(e)]
  {
    hide EpisodeJson, Clamped;
  }

  lemma {:induction false} EpisodesReadBack(env: Env, es: seq<Episode>, seriesKind: string)
    requires LowerOk(env.lower) && (seriesKind == SERIES || seriesKind == COURSE)
    requires forall e | e in es :: NormalisedEpisode(e, seriesKind)
    ensures NormalEpisodes(env, EpisodesJson(es), seriesKind) == ClampedAll(es)
  {
    if es == [] {
      assert EpisodesJson(es) == [] && ClampedAll(es) == [];
    } else {
      hide NormalEpisode, NormalEpisodes, NormalisedEpisode, Clamped, ClampedAll, EpisodeJson, EpisodesJson, LowerOk;
      var front, last := es[..|es| - 1], es[|es| - 1];
      assert es == front + [last];
      assert last in es && forall e | e in front :: e in es;
      EpisodesReadBack(env, front, seriesKind);
      EpisodeReadBack(env, last, |EpisodesJson(front)|, seriesKind);
      EpisodesJsonSnoc(front, last);
      EpisodesSnoc(env, EpisodesJson(front), EpisodeJson(last), seriesKind);
    }
  }

  lemma NotAfterIsTotal()
    ensures StableSort.TotalPreorder(NotAfter)
  {
  }

  lemma SortedElements(es: seq<Episode>, e: Episode)
    ensures e in StableSort.Sort(es, NotAfter) <==> e in es
  {
    hide StableSort.Sort;
    StableSort.SortKeepsElements(es, NotAfter);
    assert e in StableSort.Sort(es, NotAfter) <==> e in multiset(StableSort.Sort(es, NotAfter));
    assert e in es <==> e in multiset(es);
  }

  ghost predicate NormalisedSeries(env: Env, s: SeriesEntry) {
    && IsSlug(s.id) && TidyAndGiven(s.title) && GoodTmdbId(s.tmdbId) && GoodYear(s.year)
    && s.preferredContainer == MP4 && s.requiresLocalEpisodeSources && s.episodes != []
    && (s.contentKind == COURSE || (s.contentKind == SERIES && !Contains(env.lower(s.id + " " + s.title), COURSE)))
    && forall e | e in s.episodes :: NormalisedEpisode(e, s.contentKind)
  }

  lemma SeriesIsNormalised(env: Env, value: Value)
    requires LowerOk(env.lower) && NormalSeries(env, value).Some?
    ensures NormalisedSeries(env, NormalSeries(env, value).value)
    ensures StableSort.Sorted(NormalSeries(env, value).value.episodes, NotAfter)
  {
    hide NormalizeWhitespace, NormalizeTmdbId, NormalizeYear, GoodTmdbId, GoodYear, Tidy, Slug, TextOf, StableSort.Sort,
         NormalEpisodes, NormalisedEpisode, StableSort.TotalPreorder, IsSlug, Contains;
    var f := value.fields;
    var title := TidyText(env, Get(f, Title));
    var id := SeriesId(env, f, title);
    var kind := SeriesKind(env, Get(f, ContentKind), id, title);
    var raw := NormalEpisodes(env, ItemsOf(Get(f, Episodes)), kind);
    NormalizedIsTidy(TextOf(env, Get(f, Title)));
    FallbacksAreSlugs();
    SlugIsSlug(env.lower, NormalizeWhitespace(OrElse(TextOf(env, Get(f, Id)), title)), SERIES);
    TmdbIdIsGood(TextOf(env, Get(f, TmdbId)));
    YearIsGood(TextOf(env, Get(f, Year)));
    EpisodesAreNormalised(env, ItemsOf(Get(f, Episodes)), kind);
    NotAfterIsTotal();
    StableSort.SortIsSorted(raw, NotAfter);
    StableSort.SortKeepsElements(raw, NotAfter);
    forall e | e in StableSort.Sort(raw, NotAfter) ensures NormalisedEpisode(e, kind) { SortedElements(raw, e); }
  }

  predicate OrdinalsFit(s: SeriesEntry) { forall e | e in s.episodes :: e.episodeNumber <= MAX_ORDINAL }

  lemma ClampedStays(es: seq<Episode>)
    ensures ClampedAll(es) == es <==> forall e | e in es :: e.episodeNumber <= MAX_ORDINAL
  {
    if ClampedAll(es) == es {
      forall e | e in es ensures e.episodeNumber <= MAX_ORDINAL {
        var i :| 0 <= i < |es| && es[i] == e;
        assert ClampedAll(es)[i] == Clamped(e);
      }
    } else if forall e | e in es :: e.episodeNumber <= MAX_ORDINAL {
      assert forall i | 0 <= i < |es| :: es[i] in es && ClampedAll(es)[i] == es[i];
    }
  }

  lemma ClampedFit(es: seq<Episode>)
    ensures forall e | e in ClampedAll(es) :: e.episodeNumber <= MAX_ORDINAL
  {
  }

  lemma IdStays(env: Env, f: map<Key, Value>, id: string, title: string)
    requires LowerOk(env.lower) && IsSlug(id) && Get(f, Id) == Some(Str(id))
    ensures SeriesId(env, f, title) == id
  {
    hide Slug, NormalizeWhitespace, IsSlug, LowerOk;
    SlugStays(env.lower, id, SERIES);
    SlugIsGiven(id);
  }

  lemma KindStays(env: Env, kind: string, id: string, title: string)
    requires LowerOk(env.lower)
    requires kind == COURSE || (kind == SERIES && !Contains(env.lower(id + " " + title), COURSE))
    ensures SeriesKind(env, Some(Str(kind)), id, title) == kind
  {
    hide NormalizeWhitespace, LowerOk, Contains;
    KindWordsStay(env);
  }

  lemma SeriesReadBack(env: Env, s: SeriesEntry)
    requires LowerOk(env.lower) && NormalisedSeries(env, s)
    ensures NormalSeries(env, SeriesJson(s)) == Some(s.(episodes := StableSort.Sort(ClampedAll(s.episodes), NotAfter)))
  {
    hide NormalizeTmdbId, NormalizeYear, NormalEpisodes, NormalisedEpisode, StableSort.Sort, EpisodesJson, ClampedAll,
         Contains, Slug, NormalizeWhitespace, IsSlug, LowerOk, GoodTmdbId, GoodYear, ToLower, SeriesId, SeriesKind;
    IdStays(env, SeriesJson(s).fields, s.id, s.title);
    SlugIsGiven(s.id);
    KindStays(env, s.contentKind, s.id, s.title);
    EpisodesReadBack(env, s.episodes, s.contentKind);
    GoodStays(s.tmdbId);
    GoodStays(s.year);
  }

  lemma SlugIsGiven(s: string)
    requires IsSlug(s)
    ensures s != ""
  {
  }

  /** A normalised series is read back as it is exactly when no episode number exceeds 999. */
  lemma SeriesStaysExactly(env: Env, s: SeriesEntry)
    requires LowerOk(env.lower) && NormalisedSeries(env, s) && StableSort.Sorted(s.episodes, NotAfter)
    ensures NormalSeries(env, SeriesJson(s)).Some?
    ensures NormalSeries(env, SeriesJson(s)) == Some(s) <==> OrdinalsFit(s)
  {
    hide NormalSeries, SeriesJson, NormalisedSeries, StableSort.Sort, StableSort.Sorted, ClampedAll, Clamped;
    SeriesReadBack(env, s);
    ClampedStays(s.episodes);
    if OrdinalsFit(s) {
      StableSort.SortedIsFixed(s.episodes, NotAfter);
    } else {
      ClampedFit(s.episodes);
      forall e | e in StableSort.Sort(ClampedAll(s.episodes), NotAfter) ensures e.episodeNumber <= MAX_ORDINAL {
        SortedElements(ClampedAll(s.episodes), e);
      }
    }
  }

  // ---------------------------------------------------------------------------
  // The library
  // ---------------------------------------------------------------------------

  function MoviesJson(ms: seq<Movie>): (r: seq<Value>)
    ensures |r| == |ms| && forall i | 0 <= i < |ms| :: r[i] == MovieJson(ms[i])
  {
    seq(|ms|, i requires 0 <= i < |ms| => MovieJson(ms[i]))
  }

  function SeriesListJson(ss: seq<SeriesEntry>): (r: seq<Value>)
    ensures |r| == |ss| && forall i | 0 <= i < |ss| :: r[i] == SeriesJson(ss[i])
  {
    seq(|ss|, i requires 0 <= i < |ss| => SeriesJson(ss[i]))
  }

  lemma {:induction false} MoviesAreNormalised(env: Env, items: seq<Value>)
    requires LowerOk(env.lower)
    ensures forall m | m in NormalMovies(env, items) :: NormalisedMovie(m)
  {
    if items != [] {
      hide NormalMovie, NormalisedMovie, LowerOk;
      MoviesAreNormalised(env, items[..|items| - 1]);
      MovieIsNormalised(env, items[|items| - 1]);
    }
  }

  lemma MoviesSnoc(env: Env, items: seq<Value>, x: Value)
    ensures NormalMovies(env, items + [x]) == NormalMovies(env, items) + OneOrNone(NormalMovie(env, x))
  {
    hide NormalMovie;
    assert (items + [x])[..|items|] == items;
  }

  lemma MoviesJsonSnoc(ms: seq<Movie>, m: Movie)
    ensures MoviesJson(ms + [m]) == MoviesJson(ms) + [MovieJson(m)]
  {
    hide MovieJson;
  }

  lemma {:induction false} MoviesStay(env: Env, ms: seq<Movie>)
    requires forall m | m in ms :: NormalisedMovie(m)
    ensures NormalMovies(env, MoviesJson(ms)) == ms
  {
    if ms == [] {
      assert MoviesJson(ms) == [];
    } else {
      hide NormalMovie, NormalMovies, NormalisedMovie, MovieJson, MoviesJson;
      var front, last := ms[..|ms| - 1], ms[|ms| - 1];
      assert ms == front + [last];
      assert last in ms && forall m | m in front :: m in ms;
      MoviesStay(env, front);
      MovieStays(env, last);
      MoviesJsonSnoc(front, last);
      MoviesSnoc(env, MoviesJson(front), MovieJson(last));
    }
  }

  ghost predicate GoodSeries(env: Env, s: SeriesEntry) {
    NormalisedSeries(env, s) && StableSort.Sorted(s.episodes, NotAfter)
  }

  lemma {:induction false} SeriesListIsGood(env: Env, items: seq<Value>)
    requires LowerOk(env.lower)
    ensures forall s | s in NormalSeriesList(env, items) :: GoodSeries(env, s)
  {
    if items != [] {
      hide NormalSeries, NormalisedSeries, LowerOk, StableSort.Sorted;
      SeriesListIsGood(env, items[..|items| - 1]);
      if NormalSeries(env, items[|items| - 1]).Some? { SeriesIsNormalised(env, items[|items| - 1]); }
    }
  }

  lemma SeriesListSnoc(env: Env, items: seq<Value>, x: Value)
    ensures NormalSeriesList(env, items + [x]) == NormalSeriesList(env, items) + OneOrNone(NormalSeries(env, x))
  {
    hide NormalSeries;
    assert (items + [x])[..|items|] == items;
  }

  lemma SeriesJsonSnoc(ss: seq<SeriesEntry>, x: SeriesEntry)
    ensures SeriesListJson(ss + [x]) == SeriesListJson(ss) + [SeriesJson(x)]
  {
    hide SeriesJson;
  }

  lemma {:induction false} SeriesListReadBack(env: Env, ss: seq<SeriesEntry>)
    requires LowerOk(env.lower) && forall s | s in ss :: GoodSeries(env, s)
    ensures |NormalSeriesList(env, SeriesListJson(ss))| == |ss|
    ensures NormalSeriesList(env, SeriesListJson(ss)) == ss <==> forall s | s in ss :: OrdinalsFit(s)
  {
    if ss == [] {
      assert SeriesListJson(ss) == [];
    } else {
      hide NormalSeries, NormalSeriesList, NormalisedSeries, LowerOk, StableSort.Sorted, SeriesJson, SeriesListJson,
          OrdinalsFit;
      var front, last := ss[..|ss| - 1], ss[|ss| - 1];
      assert ss == front + [last];
      assert last in ss && forall s | s in front :: s in ss;
      SeriesListReadBack(env, front);
      SeriesStaysExactly(env, last);
      SeriesJsonSnoc(front, last);
      SeriesListSnoc(env, SeriesListJson(front), SeriesJson(last));
      SameSnoc(NormalSeriesList(env, SeriesListJson(front)), NormalSeries(env, SeriesJson(last)).value, front, last);
    }
  }

  lemma SameSnoc<T>(a: seq<T>, x: T, b: seq<T>, y: T)
    requires |a| == |b|
    ensures a + [x] == b + [y] <==> a == b && x == y
  {
    if a + [x] == b + [y] {
      assert (a + [x])[..|a|] == a && (b + [y])[..|b|] == b;
      assert (a + [x])[|a|] == x && (b + [y])[|b|] == y;
    }
  }

  predicate AllOrdinalsFit(l: Library) { forall s | s in l.series :: OrdinalsFit(s) }

  /** A normalised library, stored and read with any later clock, comes back as it was exactly when no
      episode in it has a number above 999. */
  lemma ReadsBackExactly(env: Env, value: Value, later: int)
    requires LowerOk(env.lower)
    ensures var library := Normalize(env, value);
            Normalize(env.(now := later), LibraryJson(library)) == library <==> AllOrdinalsFit(library)
  {
    hide NormalMovies, NormalSeriesList, LowerOk, NormalisedMovie, GoodSeries, OrdinalsFit, MovieJson, SeriesJson;
    var f := if value.Object? then value.fields else map[];
    var library, reader := Normalize(env, value), env.(now := later);
    MoviesAreNormalised(env, ItemsOf(Get(f, Movies)));
    SeriesListIsGood(env, ItemsOf(Get(f, Series)));
    MoviesStay(reader, library.movies);
    forall s | s in library.series ensures GoodSeries(reader, s) { SameForReader(env, reader, s); }
    SeriesListReadBack(reader, library.series);
    LibraryJsonIs(library);
  }

  lemma LibraryJsonIs(l: Library)
    ensures LibraryJson(l) == Object(map[Movies := Array(MoviesJson(l.movies)),
        Series := Array(SeriesListJson(l.series))])
  {
    assert seq(|l.movies|, i requires 0 <= i < |l.movies| => MovieJson(l.movies[i])) == MoviesJson(l.movies);
    assert seq(|l.series|, i requires 0 <= i < |l.series| => SeriesJson(l.series[i])) == SeriesListJson(l.series);
  }

  lemma SameForReader(env: Env, reader: Env, s: SeriesEntry)
    requires GoodSeries(env, s) && reader.lower == env.lower
    ensures GoodSeries(reader, s)
  {
  }

  // ---------------------------------------------------------------------------
  // The condition, told from the raw library
  // ---------------------------------------------------------------------------

  /** An episode that is kept, stands behind the 999th place, and has an explicit number that is not
      positive. */
  predicate LateOrdinal(env: Env, items: seq<Value>, i: nat)
    requires i < |items|
  {
    && i >= MAX_ORDINAL && items[i].Object? && TidyText(env, Get(items[i].fields, Src)) != ""
    && IntOf(Get(items[i].fields, EpisodeNumber)).Some? && IntOf(Get(items[i].fields, EpisodeNumber)).value <= 0
  }

  ghost predicate HasLateOrdinal(env: Env, series: Value) {
    && series.Object? && TidyText(env, Get(series.fields, Title)) != ""
    && exists i :: 0 <= i < |ItemsOf(Get(series.fields, Episodes))|
        && LateOrdinal(env, ItemsOf(Get(series.fields, Episodes)), i)
  }

  lemma OrdinalIsLate(env: Env, items: seq<Value>, i: nat, seriesKind: string)
    requires i < |items|
    ensures var e := NormalEpisode(env, items[i], i, seriesKind);
            (e.Some? && e.value.episodeNumber > MAX_ORDINAL) <==> LateOrdinal(env, items, i)
  {
    hide NormalizeWhitespace, DefaultTitle, TextOf;
  }

  predicate StoodAt(env: Env, items: seq<Value>, i: nat, seriesKind: string, e: Episode)
    requires i < |items|
  {
    NormalEpisode(env, items[i], i, seriesKind) == Some(e)
  }

  lemma StoodInFront(env: Env, front: seq<Value>, last: Value, seriesKind: string, e: Episode)
    ensures (exists i :: 0 <= i < |front + [last]| && StoodAt(env, front + [last], i, seriesKind, e))
       <==> (exists i :: 0 <= i < |front| && StoodAt(env, front, i, seriesKind, e))
            || NormalEpisode(env, last, |front|, seriesKind) == Some(e)
  {
    hide NormalEpisode;
    var items := front + [last];
    if i :| 0 <= i < |front| && StoodAt(env, front, i, seriesKind, e) { assert StoodAt(env, items, i, seriesKind, e); }
    if NormalEpisode(env, last, |front|, seriesKind) == Some(e) { assert StoodAt(env, items, |front|, seriesKind, e); }
    if i :| 0 <= i < |items| && StoodAt(env, items, i, seriesKind, e) {
      if i < |front| { assert StoodAt(env, front, i, seriesKind, e); }
    }
  }

  lemma {:induction false} EpisodeStood(env: Env, items: seq<Value>, seriesKind: string, e: Episode)
    ensures e in NormalEpisodes(env, items, seriesKind)
       <==> exists i :: 0 <= i < |items| && StoodAt(env, items, i, seriesKind, e)
  {
    if items != [] {
      hide NormalEpisode, NormalEpisodes, StoodAt;
      var front, last := items[..|items| - 1], items[|items| - 1];
      assert items == front + [last];
      EpisodeStood(env, front, seriesKind, e);
      EpisodesSnoc(env, front, last, seriesKind);
      StoodInFront(env, front, last, seriesKind, e);
    }
  }

  lemma EpisodesFitExactly(env: Env, items: seq<Value>, seriesKind: string)
    ensures (forall e | e in NormalEpisodes(env, items, seriesKind) :: e.episodeNumber <= MAX_ORDINAL)
       <==> !exists i :: 0 <= i < |items| && LateOrdinal(env, items, i)
  {
    hide NormalEpisode, LateOrdinal, NormalEpisodes;
    if i :| 0 <= i < |items| && LateOrdinal(env, items, i) {
      OrdinalIsLate(env, items, i, seriesKind);
      assert StoodAt(env, items, i, seriesKind, NormalEpisode(env, items[i], i, seriesKind).value);
      EpisodeStood(env, items, seriesKind, NormalEpisode(env, items[i], i, seriesKind).value);
    }
    if e :| e in NormalEpisodes(env, items, seriesKind) && e.episodeNumber > MAX_ORDINAL {
      EpisodeStood(env, items, seriesKind, e);
      var i :| 0 <= i < |items| && StoodAt(env, items, i, seriesKind, e);
      OrdinalIsLate(env, items, i, seriesKind);
    }
  }

  lemma SeriesFitsExactly(env: Env, value: Value)
    requires LowerOk(env.lower)
    ensures (NormalSeries(env, value).Some? && !OrdinalsFit(NormalSeries(env, value).value))
            <==> HasLateOrdinal(env, value)
  {
    hide NormalEpisodes, LateOrdinal, NormalizeWhitespace, TextOf, Slug, LowerOk, StableSort.Sort, IsSlug;
    if value.Object? {
      var f := value.fields;
      var title := TidyText(env, Get(f, Title));
      var id := SeriesId(env, f, title);
      var kind := SeriesKind(env, Get(f, ContentKind), id, title);
      var items := ItemsOf(Get(f, Episodes));
      FallbacksAreSlugs();
      SlugIsSlug(env.lower, NormalizeWhitespace(OrElse(TextOf(env, Get(f, Id)), title)), SERIES);
      SlugIsGiven(id);
      EpisodesFitExactly(env, items, kind);
      forall e ensures e in StableSort.Sort(NormalEpisodes(env, items, kind), NotAfter)
          <==> e in NormalEpisodes(env, items, kind) {
        SortedElements(NormalEpisodes(env, items, kind), e);
      }
    }
  }

  lemma {:induction false} SeriesListFitsExactly(env: Env, items: seq<Value>)
    requires LowerOk(env.lower)
    ensures (forall s | s in NormalSeriesList(env, items) :: OrdinalsFit(s))
       <==> forall value | value in items :: !HasLateOrdinal(env, value)
  {
    if items != [] {
      hide NormalSeries, OrdinalsFit, HasLateOrdinal, LowerOk;
      var front, last := items[..|items| - 1], items[|items| - 1];
      assert items == front + [last];
      SeriesListFitsExactly(env, front);
      SeriesFitsExactly(env, last);
    }
  }

  /** What a write returns is what every later read returns, exactly unless a titled series lists, behind
      its 999th place, an episode with a source and an explicit number that is not positive. */
  lemma ReadAfterWriteExactly(env: Env, value: Value, later: int)
    requires LowerOk(env.lower)
    ensures Normalize(env.(now := later), LibraryJson(Normalize(env, value))) == Normalize(env, value)
       <==> !exists series :: series in ItemsOf(if value.Object? then Get(value.fields, Series) else None)
                              && HasLateOrdinal(env, series)
  {
    hide NormalMovies, NormalSeriesList, LowerOk, OrdinalsFit, LibraryJson, HasLateOrdinal;
    ReadsBackExactly(env, value, later);
    var f := if value.Object? then value.fields else map[];
    SeriesListFitsExactly(env, ItemsOf(Get(f, Series)));
  }

  /** A thousand episodes without a number of their own: the last one is stored as number 1000 and
      read back as 999. */
  function ThousandEpisodes(): seq<Value> {
    seq(1000, i requires 0 <= i < 1000 => Object(map[Src := Str("v"), EpisodeNumber := Int(0)]))
  }

  lemma ThousandthEpisodeChanges(env: Env, later: int)
    requires LowerOk(env.lower)
    ensures var series := Object(map[Title := Str("t"), Episodes := Array(ThousandEpisodes())]);
            var library := Normalize(env, Object(map[Series := Array([series])]));
            Normalize(env.(now := later), LibraryJson(library)) != library
  {
    hide Normalize, LibraryJson, NormalizeWhitespace, LowerOk, Tidy;
    var series := Object(map[Title := Str("t"), Episodes := Array(ThousandEpisodes())]);
    var value := Object(map[Series := Array([series])]);
    OneLetterIsTidy('v');
    OneLetterIsTidy('t');
    assert ItemsOf(Get(series.fields, Episodes)) == ThousandEpisodes();
    assert LateOrdinal(env, ItemsOf(Get(series.fields, Episodes)), 999);
    assert HasLateOrdinal(env, series);
    assert ItemsOf(Get(value.fields, Series)) == [series] && series in [series];
    ReadAfterWriteExactly(env, value, later);
  }

  lemma OneLetterIsTidy(c: char)
    requires !IsWhitespace(c)
    ensures NormalizeWhitespace([c]) == [c]
  {
    WordIsTidy([c]);
  }
}
