/** What the normaliser of src/library.rs makes of a raw library, entry by entry and field by field. */
module LibraryReading {
  import opened Text
  import opened LibraryText
  import opened LibraryNormaliser
  import Decimal
  import StableSort

  // ---------------------------------------------------------------------------
  // Fields
  // ---------------------------------------------------------------------------

  /** The words of a text, with single blanks in between. */
  function Spaced(s: string): string { Join(Words(s), " ") }

  predicate HasWords(s: string) { exists c | c in s :: !IsWhitespace(c) }

  lemma {:induction false} NoWords(s: string)
    ensures Words(s) == [] <==> !HasWords(s)
  {
    if s != "" && IsWhitespace(s[0]) {
      NoWords(s[1..]);
      assert s == [s[0]] + s[1..];
    } else if s != "" {
      assert s[0] in s;
    }
  }

  lemma NormalizedIsSpaced(s: string)
    ensures NormalizeWhitespace(s) == Spaced(s) && (Spaced(s) == "" <==> !HasWords(s))
  {
    NoWords(s);
    WordsAreWords(s);
    JoinedWordsAreTrimmed(Words(s));
    TrimmedIsFixed(Spaced(s));
  }

  /** The text of a member: a string counts as it is, a missing member as empty, anything else by its JSON text
      without the quotes at its ends. */
  lemma TextIs(env: Env, value: Value, quotes: nat, text: string)
    requires text == "" || (text[0] != '"' && text[|text| - 1] != '"')
    requires !value.Str? && env.display(value) == Quotes(quotes) + text + Quotes(quotes)
    ensures TextOf(env, Some(value)) == text && TextOf(env, Some(Str(text))) == text && TextOf(env, None) == ""
  {
    QuotesGo(quotes, text);
  }

  function Quotes(n: nat): string { if n == 0 then "" else "\"" + Quotes(n - 1) }

  lemma {:induction false} QuotesGo(n: nat, text: string)
    requires text == "" || (text[0] != '"' && text[|text| - 1] != '"')
    ensures WithoutQuotes(Quotes(n) + text + Quotes(n)) == text
  {
    LeadingQuotesGo(n, text + Quotes(n));
    assert Quotes(n) + text + Quotes(n) == Quotes(n) + (text + Quotes(n));
    TrailingQuotesGo(n, text);
  }

  lemma {:induction false} LeadingQuotesGo(n: nat, rest: string)
    ensures WithoutQuotes(Quotes(n) + rest) == WithoutQuotes(rest)
  {
    if n == 0 {
      assert Quotes(n) + rest == rest;
    } else {
      LeadingQuotesGo(n - 1, rest);
      assert (Quotes(n) + rest)[1..] == Quotes(n - 1) + rest;
    }
  }

  lemma {:induction false} QuotesEnd(n: nat)
    ensures Quotes(n + 1) == Quotes(n) + "\""
  {
    if n > 0 { QuotesEnd(n - 1); }
  }

  lemma {:induction false} TrailingQuotesGo(n: nat, text: string)
    requires text == "" || (text[0] != '"' && text[|text| - 1] != '"')
    ensures WithoutQuotes(text + Quotes(n)) == text
  {
    if n == 0 {
      assert text + Quotes(n) == text;
    } else if text == "" {
      assert text + Quotes(n) == Quotes(n) + "";
      LeadingQuotesGo(n, "");
    } else {
      TrailingQuotesGo(n - 1, text);
      QuotesEnd(n - 1);
      assert (text + Quotes(n))[..|text| + |Quotes(n)| - 1] == text + Quotes(n - 1);
    }
  }

  /** A number is read as it is, and from the text it is printed as. */
  lemma NumberIs(n: int)
    requires I64_MIN <= n <= I64_MAX
    ensures IntOf(Some(Int(n))) == Some(n) && IntOf(Some(Str(Decimal.IntToString(n)))) == Some(n) && IntOf(None) == None
  {
    Decimal.ParsePrinted(n, I64_MIN, I64_MAX);
  }

  /** A year and a number, of texts that are one but for outer blanks. */
  ghost predicate IsYearOf(year: string, raw: string) {
    if IsYear(Trim(raw)) then year == Trim(raw) else year == ""
  }

  predicate IsNumberOf(number: string, raw: string) {
    if Decimal.AllDigits(Trim(raw)) then number == Trim(raw) else number == ""
  }

  lemma NumbersAre(raw: string)
    ensures IsYearOf(NormalizeYear(raw), raw) && IsNumberOf(NormalizeTmdbId(raw), raw)
  {
    YearExactly(Trim(raw));
  }

  // ---------------------------------------------------------------------------
  // Movies
  // ---------------------------------------------------------------------------

  function Raw(env: Env, value: Value, key: Key): string
    requires value.Object?
  {
    TextOf(env, Get(value.fields, key))
  }

  /** A raw movie counts exactly if its title and its source hold words. */
  predicate CountsAsMovie(env: Env, value: Value) {
    value.Object? && HasWords(Raw(env, value, Title)) && HasWords(Raw(env, value, Src))
  }

  lemma MovieCounts(env: Env, value: Value)
    ensures NormalMovie(env, value).Some? <==> CountsAsMovie(env, value)
  {
    hide TextOf, NormalizeWhitespace, Slug, NormalizeYear, NormalizeTmdbId, HasWords, Spaced;
    if value.Object? {
      NormalizedIsSpaced(Raw(env, value, Title));
      NormalizedIsSpaced(Raw(env, value, Src));
    }
  }

  /** And what it becomes, field by field. */
  lemma MovieIsRead(env: Env, value: Value)
    requires CountsAsMovie(env, value)
    ensures NormalMovie(env, value).Some?
    ensures var m := NormalMovie(env, value).value;
      && m.title == Spaced(Raw(env, value, Title)) && m.src == Spaced(Raw(env, value, Src))
      && m.description == Spaced(Raw(env, value, Description))
      && m.id == (if HasWords(Raw(env, value, Id)) then Spaced(Raw(env, value, Id))
          else Slug(env.lower, m.title, "title"))
      && m.thumb == (if HasWords(Raw(env, value, Thumb)) then Spaced(Raw(env, value, Thumb))
                     else "assets/images/thumbnail.jpg")
      && IsYearOf(m.year, Raw(env, value, Year)) && IsNumberOf(m.tmdbId, Raw(env, value, TmdbId))
      && m.uploadedAt == (if IntOf(Get(value.fields, UploadedAt)).Some? then IntOf(Get(value.fields, UploadedAt)).value
                          else env.now)
  {
    hide TextOf, NormalizeWhitespace, Slug, NormalizeYear, NormalizeTmdbId, HasWords, Spaced, IntOf, IsYearOf,
         IsNumberOf;
    NormalizedIsSpaced(Raw(env, value, Title));
    NormalizedIsSpaced(Raw(env, value, Src));
    NormalizedIsSpaced(Raw(env, value, Description));
    NormalizedIsSpaced(Raw(env, value, Id));
    NormalizedIsSpaced(Raw(env, value, Thumb));
    NumbersAre(Raw(env, value, Year));
    NumbersAre(Raw(env, value, TmdbId));
  }

  // ---------------------------------------------------------------------------
  // Episodes
  // ---------------------------------------------------------------------------

  predicate CountsAsEpisode(env: Env, value: Value) { value.Object? && HasWords(Raw(env, value, Src)) }

  predicate SaysCourse(env: Env, value: Value)
    requires value.Object?
  {
    env.lower(Spaced(Raw(env, value, ContentKind))) == "course"
  }

  lemma EpisodeCounts(env: Env, value: Value, index: nat, seriesKind: string)
    ensures NormalEpisode(env, value, index, seriesKind).Some? <==> CountsAsEpisode(env, value)
  {
    hide TextOf, NormalizeWhitespace, HasWords, Spaced, DefaultTitle, IntOf;
    if value.Object? { NormalizedIsSpaced(Raw(env, value, Src)); }
  }

  /** The number an episode or a season is given: at most 999; a number that is not positive counts as the place
      in the list, which is not capped. */
  predicate IsOrdinalOf(ordinal: int, given: Option<int>, place: int) {
    match given
    case None => ordinal == if place <= 999 then place else 999
    case Some(n) => ordinal == if n <= 0 then place else if n <= 999 then n else 999
  }

  lemma EpisodeIsRead(env: Env, value: Value, index: nat, seriesKind: string)
    requires CountsAsEpisode(env, value)
    ensures NormalEpisode(env, value, index, seriesKind).Some?
    ensures var e := NormalEpisode(env, value, index, seriesKind).value;
      && e.src == Spaced(Raw(env, value, Src)) && e.description == Spaced(Raw(env, value, Description))
      && e.contentKind == (if SaysCourse(env, value) then "course" else seriesKind)
      && IsOrdinalOf(e.episodeNumber, IntOf(Get(value.fields, EpisodeNumber)), index + 1)
      && IsOrdinalOf(e.seasonNumber, IntOf(Get(value.fields, SeasonNumber)), 1)
      && e.title == (if HasWords(Raw(env, value, Title)) then Spaced(Raw(env, value, Title))
                     else (if e.contentKind == "course" then "Lesson " else "Episode ")
                          + Decimal.NatToString(e.episodeNumber))
      && e.thumb == (if HasWords(Raw(env, value, Thumb)) then Spaced(Raw(env, value, Thumb))
                     else "assets/images/thumbnail.jpg")
      && e.uploadedAt == (if IntOf(Get(value.fields, UploadedAt)).Some? then IntOf(Get(value.fields, UploadedAt)).value
                          else env.now)
  {
    hide TextOf, NormalizeWhitespace, HasWords, Spaced, IntOf, Decimal.NatToString, DefaultTitle;
    NormalizedIsSpaced(Raw(env, value, Src));
    NormalizedIsSpaced(Raw(env, value, Description));
    NormalizedIsSpaced(Raw(env, value, Title));
    NormalizedIsSpaced(Raw(env, value, Thumb));
    NormalizedIsSpaced(Raw(env, value, ContentKind));
    DefaultTitleIs(EpisodeKind(env, Get(value.fields, ContentKind), seriesKind),
                   EpisodeOrdinal(Get(value.fields, EpisodeNumber), index));
  }

  lemma DefaultTitleIs(kind: string, number: nat)
    ensures DefaultTitle(kind, number)
            == (if kind == "course" then "Lesson " else "Episode ") + Decimal.NatToString(number)
  {
    hide Decimal.NatToString;
    assert "Lesson" + " " == "Lesson " && "Episode" + " " == "Episode ";
  }

  // ---------------------------------------------------------------------------
  // What a list of raw entries becomes
  // ---------------------------------------------------------------------------

  /** The entries that were found, none left out and in order. */
  ghost predicate Collects<T>(out: seq<T>, found: seq<Option<T>>) {
    exists places: seq<nat> :: CollectedFrom(out, found, places)
  }

  ghost predicate CollectedFrom<T>(out: seq<T>, found: seq<Option<T>>, places: seq<nat>) {
    && |places| == |out|
    && (forall i, j | 0 <= i < j < |places| :: places[i] < places[j])
    && (forall j | 0 <= j < |places| :: places[j] < |found| && found[places[j]] == Some(out[j]))
    && forall i: nat | i < |found| && found[i].Some? :: i in places
  }

  lemma CollectsNothing<T>()
    ensures Collects<T>([], [])
  {
    assert CollectedFrom<T>([], [], []);
  }

  lemma PlacesSnoc<T>(out: seq<T>, found: seq<Option<T>>, x: Option<T>, places: seq<nat>)
    requires CollectedFrom(out, found, places)
    ensures CollectedFrom(out + OneOrNone(x), found + [x], if x.Some? then places + [|found|] else places)
  {
    var n, more := |found|, found + [x];
    assert more[n] == x && forall i | 0 <= i < n :: more[i] == found[i];
    if x.Some? {
      var after := places + [n];
      assert after[|places|] == n && forall i | 0 <= i < |places| :: after[i] == places[i];
      forall i: nat | i < |more| && more[i].Some? ensures i in after {
        if i < n { assert i in places; }
      }
    } else {
      assert out + OneOrNone(x) == out;
    }
  }

  lemma CollectsSnoc<T>(out: seq<T>, found: seq<Option<T>>, x: Option<T>)
    requires Collects(out, found)
    ensures Collects(out + OneOrNone(x), found + [x])
  {
    hide CollectedFrom;
    var places: seq<nat> :| CollectedFrom(out, found, places);
    PlacesSnoc(out, found, x, places);
  }

  function FoundMovies(env: Env, items: seq<Value>): (r: seq<Option<Movie>>)
    ensures |r| == |items| && forall i | 0 <= i < |items| :: r[i] == NormalMovie(env, items[i])
  {
    seq(|items|, i requires 0 <= i < |items| => NormalMovie(env, items[i]))
  }

  function FoundSeries(env: Env, items: seq<Value>): (r: seq<Option<SeriesEntry>>)
    ensures |r| == |items| && forall i | 0 <= i < |items| :: r[i] == NormalSeries(env, items[i])
  {
    seq(|items|, i requires 0 <= i < |items| => NormalSeries(env, items[i]))
  }

  function FoundEpisodes(env: Env, items: seq<Value>, kind: string): (r: seq<Option<Episode>>)
    ensures |r| == |items| && forall i | 0 <= i < |items| :: r[i] == NormalEpisode(env, items[i], i, kind)
  {
    seq(|items|, i requires 0 <= i < |items| => NormalEpisode(env, items[i], i, kind))
  }

  lemma {:induction false} MoviesAreCollected(env: Env, items: seq<Value>)
    ensures Collects(NormalMovies(env, items), FoundMovies(env, items))
  {
    hide NormalMovie, Collects, NormalMovies;
    if items == [] {
      assert NormalMovies(env, []) == [] by { EmptyLists(env, ""); }
      CollectsNothing<Movie>();
      assert FoundMovies(env, items) == [];
    } else {
      var front, last := items[..|items| - 1], items[|items| - 1];
      assert items == front + [last];
      MoviesAreCollected(env, front);
      CollectsSnoc(NormalMovies(env, front), FoundMovies(env, front), NormalMovie(env, last));
      MoviesSnoc(env, front, last);
      assert FoundMovies(env, items) == FoundMovies(env, front) + [NormalMovie(env, last)];
    }
  }

  lemma EmptyLists(env: Env, kind: string)
    ensures NormalMovies(env, []) == [] && NormalSeriesList(env, []) == [] && NormalEpisodes(env, [], kind) == []
  {
  }

  lemma {:induction false} SeriesAreCollected(env: Env, items: seq<Value>)
    ensures Collects(NormalSeriesList(env, items), FoundSeries(env, items))
  {
    hide NormalSeries, Collects, NormalSeriesList;
    if items == [] {
      EmptyLists(env, "");
      CollectsNothing<SeriesEntry>();
      assert FoundSeries(env, items) == [];
    } else {
      var front, last := items[..|items| - 1], items[|items| - 1];
      assert items == front + [last];
      SeriesAreCollected(env, front);
      CollectsSnoc(NormalSeriesList(env, front), FoundSeries(env, front), NormalSeries(env, last));
      SeriesListSnoc(env, front, last);
      assert FoundSeries(env, items) == FoundSeries(env, front) + [NormalSeries(env, last)];
    }
  }

  lemma {:induction false} EpisodesAreCollected(env: Env, items: seq<Value>, kind: string)
    ensures Collects(NormalEpisodes(env, items, kind), FoundEpisodes(env, items, kind))
  {
    hide NormalEpisode, Collects, NormalEpisodes;
    if items == [] {
      EmptyLists(env, kind);
      CollectsNothing<Episode>();
      assert FoundEpisodes(env, items, kind) == [];
    } else {
      var front, last := items[..|items| - 1], items[|items| - 1];
      assert items == front + [last];
      EpisodesAreCollected(env, front, kind);
      CollectsSnoc(NormalEpisodes(env, front, kind), FoundEpisodes(env, front, kind),
                   NormalEpisode(env, last, |front|, kind));
      EpisodesSnoc(env, front, last, kind);
      assert FoundEpisodes(env, items, kind)
          == FoundEpisodes(env, front, kind) + [NormalEpisode(env, last, |front|, kind)];
    }
  }

  // ---------------------------------------------------------------------------
  // Series
  // ---------------------------------------------------------------------------

  /** A raw series counts exactly if its title holds words and one of its episodes counts. */
  predicate CountsAsSeries(env: Env, value: Value) {
    value.Object? && HasWords(Raw(env, value, Title))
    && exists item | item in ItemsOf(Get(value.fields, Episodes)) :: CountsAsEpisode(env, item)
  }

  lemma {:induction false} SomeEpisodeCounts(env: Env, items: seq<Value>, kind: string)
    ensures NormalEpisodes(env, items, kind) != [] <==> exists item | item in items :: CountsAsEpisode(env, item)
  {
    if items != [] {
      hide NormalEpisode, CountsAsEpisode, NormalEpisodes;
      var front, last := items[..|items| - 1], items[|items| - 1];
      assert items == front + [last];
      SomeEpisodeCounts(env, front, kind);
      EpisodeCounts(env, last, |front|, kind);
      EpisodesSnoc(env, front, last, kind);
    }
  }

  lemma SeriesCounts(env: Env, value: Value)
    requires LowerOk(env.lower)
    ensures NormalSeries(env, value).Some? <==> CountsAsSeries(env, value)
  {
    hide TextOf, NormalizeWhitespace, Slug, NormalizeYear, NormalizeTmdbId, HasWords, Spaced, IsSlug, LowerOk,
         NormalEpisodes, CountsAsEpisode, StableSort.Sort, SeriesKind;
    if value.Object? {
      var title := TidyText(env, Get(value.fields, Title));
      var id := SeriesId(env, value.fields, title);
      NormalizedIsSpaced(Raw(env, value, Title));
      IdIsGiven(env, value.fields, title);
      SomeEpisodeCounts(env, ItemsOf(Get(value.fields, Episodes)),
                        SeriesKind(env, Get(value.fields, ContentKind), id, title));
    }
  }

  lemma IdIsGiven(env: Env, f: map<Key, Value>, title: string)
    requires LowerOk(env.lower)
    ensures SeriesId(env, f, title) != ""
  {
    hide NormalizeWhitespace, Slug, TextOf, LowerOk;
    FallbacksAreSlugs();
    SlugIsSlug(env.lower, NormalizeWhitespace(OrElse(TextOf(env, Get(f, Id)), title)), SERIES);
  }

  /** The identifier of a series is the slug of what is given for it, or else of its title. */
  lemma SeriesIdIs(env: Env, value: Value)
    requires value.Object?
    ensures var title := Spaced(Raw(env, value, Title));
            SeriesId(env, value.fields, title)
            == Slug(env.lower, if Raw(env, value, Id) != "" then Raw(env, value, Id) else title, "series")
  {
    hide TextOf;
    NormalizedIsTidy(OrElse(TextOf(env, Get(value.fields, Id)), Spaced(Raw(env, value, Title))));
    hide NormalizeWhitespace;
  }

  /** Episodes in the order of seasons and numbers; those of one season and number as they come in `found`. */
  ghost predicate InOrder(episodes: seq<Episode>, found: seq<Episode>) {
    && (forall i, j | 0 <= i < j < |episodes| ::
          episodes[i].seasonNumber < episodes[j].seasonNumber
          || (episodes[i].seasonNumber == episodes[j].seasonNumber
              && episodes[i].episodeNumber <= episodes[j].episodeNumber))
    && forall season, number :: Numbered(episodes, season, number) == Numbered(found, season, number)
  }

  function Numbered(es: seq<Episode>, season: int, number: int): seq<Episode> {
    if es == [] then []
    else (if es[0].seasonNumber == season && es[0].episodeNumber == number then [es[0]] else [])
         + Numbered(es[1..], season, number)
  }

  lemma {:induction false} NumberedAreTies(es: seq<Episode>, e: Episode)
    ensures Numbered(es, e.seasonNumber, e.episodeNumber) == StableSort.Ties(es, e, NotAfter)
  {
    if es != [] { NumberedAreTies(es[1..], e); }
  }

  lemma SortedInOrder(found: seq<Episode>)
    ensures InOrder(StableSort.Sort(found, NotAfter), found)
  {
    hide StableSort.Sort, StableSort.Ties, StableSort.TotalPreorder, Numbered;
    var sorted := StableSort.Sort(found, NotAfter);
    NotAfterIsTotal();
    StableSort.SortIsSorted(found, NotAfter);
    forall i, j | 0 <= i < j < |sorted|
      ensures sorted[i].seasonNumber < sorted[j].seasonNumber
              || (sorted[i].seasonNumber == sorted[j].seasonNumber
                  && sorted[i].episodeNumber <= sorted[j].episodeNumber)
    {
      assert NotAfter(sorted[i], sorted[j]);
    }
    forall season, number ensures Numbered(sorted, season, number) == Numbered(found, season, number) {
      var e := Episode("", "", "", "", "", season, number, 0);
      StableSort.SortKeepsTies(found, e, NotAfter);
      NumberedAreTies(sorted, e);
      NumberedAreTies(found, e);
    }
  }

  /** What a raw series becomes, field by field. */
  lemma SeriesIsRead(env: Env, value: Value) returns (found: seq<Episode>)
    requires LowerOk(env.lower) && CountsAsSeries(env, value)
    ensures NormalSeries(env, value).Some?
    ensures var s := NormalSeries(env, value).value;
      && s.title == Spaced(Raw(env, value, Title))
      && s.id == Slug(env.lower, if Raw(env, value, Id) != "" then Raw(env, value, Id) else s.title, "series")
      && s.contentKind == (if SaysCourse(env, value) || Contains(env.lower(s.id + " " + s.title), "course")
                           then "course" else "series")
      && IsYearOf(s.year, Raw(env, value, Year)) && IsNumberOf(s.tmdbId, Raw(env, value, TmdbId))
      && s.preferredContainer == "mp4" && s.requiresLocalEpisodeSources
      && Collects(found, FoundEpisodes(env, ItemsOf(Get(value.fields, Episodes)), s.contentKind))
      && InOrder(s.episodes, found)
  {
    hide TextOf, NormalizeWhitespace, Slug, NormalizeYear, NormalizeTmdbId, HasWords, Spaced, LowerOk, SeriesId,
         NormalEpisodes, StableSort.Sort, IsYearOf, IsNumberOf, Collects, InOrder, Contains, FoundEpisodes;
    SeriesCounts(env, value);
    var items := ItemsOf(Get(value.fields, Episodes));
    NormalizedIsSpaced(Raw(env, value, Title));
    NormalizedIsSpaced(Raw(env, value, ContentKind));
    SeriesIdIs(env, value);
    NumbersAre(Raw(env, value, Year));
    NumbersAre(Raw(env, value, TmdbId));
    found := NormalEpisodes(env, items, NormalSeries(env, value).value.contentKind);
    EpisodesAreCollected(env, items, NormalSeries(env, value).value.contentKind);
    SortedInOrder(found);
  }

  /** A library lists what its movies and series become, none of those that count left out and in order; what
      is no object or holds no list is an empty library. */
  lemma LibraryIsRead(env: Env, value: Value)
    ensures var l := Normalize(env, value);
            var movies := if value.Object? && Get(value.fields, Movies).Some? && value.fields[Movies].Array?
                          then value.fields[Movies].items else [];
            var series := if value.Object? && Get(value.fields, Series).Some? && value.fields[Series].Array?
                          then value.fields[Series].items else [];
      && Collects(l.movies, FoundMovies(env, movies)) && Collects(l.series, FoundSeries(env, series))
  {
    hide Collects, NormalMovies, NormalSeriesList, FoundMovies, FoundSeries;
    var f := if value.Object? then value.fields else map[];
    MoviesAreCollected(env, ItemsOf(Get(f, Movies)));
    SeriesAreCollected(env, ItemsOf(Get(f, Series)));
  }
}
