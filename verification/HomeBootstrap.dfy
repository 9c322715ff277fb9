/** The home page bootstrap of src/home_bootstrap.rs: one background refresh at a time, a payload in memory
    and one in the database, and rails that fall back on the previous payload when a fetch fails. */
module HomeBootstrap {
  import opened Text

  // ---------------------------------------------------------------------------
  // Payloads
  // ---------------------------------------------------------------------------

  datatype RailName = Popular | Bingeworthy | CrowdPleasers | TopSeries | CriticallyAcclaimed | NowPlaying
                    | Trending | TopRated

  /** A title or a genre, as JSON. */
  datatype Item = Item(json: string)

  /** A payload, by the parts the code looks at. A rail that is missing or malformed is absent. */
  datatype Payload = Payload(warming: bool, genres: seq<Item>, rails: map<RailName, seq<Item>>)

  function RailOf(p: Payload, rail: RailName): seq<Item> {
    if rail in p.rails then p.rails[rail] else []
  }

  /** Nothing that `before` shows is blank in `p`. */
  predicate Covers(p: Payload, before: Payload) {
    && (before.genres != [] ==> p.genres != [])
    && forall rail: RailName :: RailOf(before, rail) != [] ==> RailOf(p, rail) != []
  }

  /** A visitor sees some title or genre. */
  predicate Shows(p: Payload) {
    p.genres != [] || exists rail: RailName :: RailOf(p, rail) != []
  }

  lemma NothingToCover(p: Payload, before: Payload)
    requires !Shows(before)
    ensures Covers(p, before)
  {
  }

  /** Two rails repeat others. */
  predicate Mirrors(p: Payload) {
    RailOf(p, Trending) == RailOf(p, Popular) && RailOf(p, TopRated) == RailOf(p, CriticallyAcclaimed)
  }

  const RAIL_LIMIT := 14

  /** The item level of a rail: quality, trimming to the fields the page needs, and title art. */
  datatype Items = Items(passes: (RailName, Item) -> bool, slim: Item -> Item, withLogo: Item -> Item)

  function Passing(t: Items, rail: RailName, results: seq<Item>): seq<Item> {
    if results == [] then []
    else (if t.passes(rail, results[0]) then [results[0]] else []) + Passing(t, rail, results[1..])
  }

  function MapItems(items: seq<Item>, f: Item -> Item): (r: seq<Item>)
    ensures |r| == |items| && forall i | 0 <= i < |items| :: r[i] == f(items[i])
  {
    seq(|items|, i requires 0 <= i < |items| => f(items[i]))
  }

  /** `tmdb_list_payload_with_quality` */
  function Fresh(t: Items, rail: RailName, fetched: Option<seq<Item>>): seq<Item> {
    match fetched
    case None => []
    case Some(results) =>
      var passing := Passing(t, rail, results);
      MapItems(if |passing| > RAIL_LIMIT then passing[..RAIL_LIMIT] else passing, t.slim)
  }

  /** `rail_payload_or_previous` */
  function RailOrPrevious(t: Items, rail: RailName, fetched: Option<seq<Item>>, previous: Option<Payload>): seq<Item> {
    var rebuilt := Fresh(t, rail, fetched);
    if rebuilt != [] then rebuilt else if previous.Some? then RailOf(previous.value, rail) else rebuilt
  }

  /** `genres_or_previous` */
  function GenresOrPrevious(merged: seq<Item>, previous: Option<Payload>): seq<Item> {
    if merged != [] then merged else if previous.Some? then previous.value.genres else merged
  }

  /** What one refresh fetches; None is a failed fetch. */
  datatype Fetches = Fetches(rails: RailName -> Option<seq<Item>>, genres: seq<Item>)

  /** `build_home_bootstrap`, once the library was read. */
  function Build(t: Items, f: Fetches, previous: Option<Payload>): Payload {
    var rail := (k: RailName) => MapItems(RailOrPrevious(t, k, f.rails(k), previous), t.withLogo);
    Payload(false, GenresOrPrevious(f.genres, previous),
            map[Popular := rail(Popular), Bingeworthy := rail(Bingeworthy), CrowdPleasers := rail(CrowdPleasers),
                TopSeries := rail(TopSeries), CriticallyAcclaimed := rail(CriticallyAcclaimed),
                NowPlaying := rail(NowPlaying), Trending := rail(Popular), TopRated := rail(CriticallyAcclaimed)])
  }

  /** The rail whose fetch fills a rail. */
  function SourceOf(rail: RailName): RailName {
    match rail
    case Trending => Popular
    case TopRated => CriticallyAcclaimed
    case _ => rail
  }

  lemma BuiltRail(t: Items, f: Fetches, previous: Option<Payload>, rail: RailName)
    ensures var k := SourceOf(rail);
            RailOf(Build(t, f, previous), rail) == MapItems(RailOrPrevious(t, k, f.rails(k), previous), t.withLogo)
  {
    hide RailOrPrevious, MapItems, GenresOrPrevious;
    match rail
    case Popular =>
    case Bingeworthy =>
    case CrowdPleasers =>
    case TopSeries =>
    case CriticallyAcclaimed =>
    case NowPlaying =>
    case Trending =>
    case TopRated =>
  }

  lemma BuiltRest(t: Items, f: Fetches, previous: Option<Payload>)
    ensures !Build(t, f, previous).warming && Build(t, f, previous).genres == GenresOrPrevious(f.genres, previous)
  {
    hide RailOrPrevious, MapItems, GenresOrPrevious;
  }

  /** However the fetches go, a build blanks nothing of the payload it falls back on. */
  lemma BuildCovers(t: Items, f: Fetches, previous: Option<Payload>)
    ensures previous.Some? && Mirrors(previous.value) ==> Covers(Build(t, f, previous), previous.value)
    ensures Mirrors(Build(t, f, previous)) && !Build(t, f, previous).warming
  {
    hide Build, MapItems, Fresh, GenresOrPrevious;
    BuiltRest(t, f, previous);
    BuiltGenres(f.genres, previous);
    BuiltRail(t, f, previous, Trending);
    BuiltRail(t, f, previous, Popular);
    BuiltRail(t, f, previous, TopRated);
    BuiltRail(t, f, previous, CriticallyAcclaimed);
    forall rail: RailName
      ensures previous.Some? && Mirrors(previous.value) && RailOf(previous.value, rail) != []
          ==> RailOf(Build(t, f, previous), rail) != []
    {
      BuiltRail(t, f, previous, rail);
    }
  }

  lemma BuiltGenres(merged: seq<Item>, previous: Option<Payload>)
    ensures previous.Some? && previous.value.genres != [] ==> GenresOrPrevious(merged, previous) != []
  {
  }

  /** A rail holds at most 14 titles and each passed the quality test, or it is the previous rail. */
  lemma FreshRail(t: Items, rail: RailName, fetched: Option<seq<Item>>)
    ensures |Fresh(t, rail, fetched)| <= RAIL_LIMIT
    ensures forall x | x in Fresh(t, rail, fetched) ::
              fetched.Some? && exists y :: y in fetched.value && t.passes(rail, y) && x == t.slim(y)
  {
    if fetched.Some? {
      var passing := Passing(t, rail, fetched.value);
      PassingItems(t, rail, fetched.value);
      var kept := if |passing| > RAIL_LIMIT then passing[..RAIL_LIMIT] else passing;
      forall x | x in Fresh(t, rail, fetched)
        ensures exists y :: y in fetched.value && t.passes(rail, y) && x == t.slim(y)
      {
        var i :| 0 <= i < |kept| && x == t.slim(kept[i]);
        assert kept[i] in passing;
      }
    }
  }

  lemma {:induction false} PassingItems(t: Items, rail: RailName, results: seq<Item>)
    ensures forall x | x in Passing(t, rail, results) :: x in results && t.passes(rail, x)
  {
    if results != [] { PassingItems(t, rail, results[1..]); }
  }

  /** Which titles of a fetch a rail shows: the first 14 that pass, in order. */
  predicate Picks(t: Items, rail: RailName, results: seq<Item>, idx: seq<nat>) {
    && |idx| <= 14
    && (forall i | 0 <= i < |idx| :: idx[i] < |results| && t.passes(rail, results[idx[i]]))
    && (forall i, j | 0 <= i < j < |idx| :: idx[i] < idx[j])
    && forall k | 0 <= k < |results| && t.passes(rail, results[k]) :: k in idx || (|idx| == 14 && idx[13] < k)
  }

  /** Those titles as they are shown: trimmed, and with title art. */
  function Picked(t: Items, results: seq<Item>, idx: seq<nat>): (shown: seq<Item>)
    requires forall i | 0 <= i < |idx| :: idx[i] < |results|
    ensures |shown| == |idx| && forall i | 0 <= i < |idx| :: shown[i] == t.withLogo(t.slim(results[idx[i]]))
  {
    seq(|idx|, i requires 0 <= i < |idx| => t.withLogo(t.slim(results[idx[i]])))
  }

  /** The places of the titles that pass. */
  function Places(t: Items, rail: RailName, results: seq<Item>): (idx: seq<nat>)
    ensures forall i | 0 <= i < |idx| :: idx[i] < |results| && t.passes(rail, results[idx[i]])
    ensures forall i, j | 0 <= i < j < |idx| :: idx[i] < idx[j]
  {
    if results == [] then []
    else
      var n := |results| - 1;
      Places(t, rail, results[..n]) + if t.passes(rail, results[n]) then [n] else []
  }

  lemma {:induction false} EveryPlace(t: Items, rail: RailName, results: seq<Item>, k: nat)
    requires k < |results| && t.passes(rail, results[k])
    ensures k in Places(t, rail, results)
  {
    if k < |results| - 1 { EveryPlace(t, rail, results[..|results| - 1], k); }
  }

  lemma {:induction false} PassingSnoc(t: Items, rail: RailName, front: seq<Item>, last: Item)
    ensures Passing(t, rail, front + [last])
         == Passing(t, rail, front) + if t.passes(rail, last) then [last] else []
  {
    if front == [] {
      assert [] + [last] == [last] && [last][1..] == [];
    } else {
      assert (front + [last])[1..] == front[1..] + [last];
      PassingSnoc(t, rail, front[1..], last);
    }
  }

  lemma {:induction false} PassingPlaces(t: Items, rail: RailName, results: seq<Item>)
    ensures |Places(t, rail, results)| == |Passing(t, rail, results)|
    ensures forall i | 0 <= i < |Places(t, rail, results)| ::
              Passing(t, rail, results)[i] == results[Places(t, rail, results)[i]]
  {
    if results != [] {
      hide Passing;
      var n := |results| - 1;
      assert results == results[..n] + [results[n]];
      PassingPlaces(t, rail, results[..n]);
      PassingSnoc(t, rail, results[..n], results[n]);
    }
  }

  function FirstPlaces(t: Items, rail: RailName, results: seq<Item>): (idx: seq<nat>)
    ensures |idx| <= 14
    ensures forall i | 0 <= i < |idx| :: idx[i] < |results| && t.passes(rail, results[idx[i]])
    ensures forall i, j | 0 <= i < j < |idx| :: idx[i] < idx[j]
  {
    var all := Places(t, rail, results);
    if |all| > 14 then all[..14] else all
  }

  lemma FirstPlaceOr(t: Items, rail: RailName, results: seq<Item>, k: nat)
    requires k < |results| && t.passes(rail, results[k])
    ensures var idx := FirstPlaces(t, rail, results); idx != [] && (k in idx || (|idx| == 14 && idx[13] < k))
  {
    hide Places;
    EveryPlace(t, rail, results, k);
    var all, idx := Places(t, rail, results), FirstPlaces(t, rail, results);
    var i :| 0 <= i < |all| && all[i] == k;
    if i < |idx| { assert idx[i] == k; } else { assert all[13] < all[i] && idx[13] == all[13]; }
  }

  lemma FirstArePicks(t: Items, rail: RailName, results: seq<Item>)
    ensures Picks(t, rail, results, FirstPlaces(t, rail, results))
  {
    hide FirstPlaces;
    var idx := FirstPlaces(t, rail, results);
    forall k | 0 <= k < |results| && t.passes(rail, results[k]) ensures k in idx || (|idx| == 14 && idx[13] < k) {
      FirstPlaceOr(t, rail, results, k);
    }
  }

  lemma FirstOfSome(t: Items, rail: RailName, results: seq<Item>)
    ensures FirstPlaces(t, rail, results) != [] <==> exists x | x in results :: t.passes(rail, x)
  {
    hide FirstPlaces;
    var idx := FirstPlaces(t, rail, results);
    if x :| x in results && t.passes(rail, x) {
      var k :| 0 <= k < |results| && results[k] == x;
      FirstPlaceOr(t, rail, results, k);
    }
    if idx != [] { assert results[idx[0]] in results; }
  }

  /** A fetch in which a title passes fills the rail with its first 14 passing titles. */
  lemma FreshPicks(t: Items, rail: RailName, results: seq<Item>)
    ensures var idx, shown := FirstPlaces(t, rail, results), Fresh(t, rail, Some(results));
            |idx| == |shown| && forall i | 0 <= i < |idx| :: idx[i] < |results| && shown[i] == t.slim(results[idx[i]])
  {
    hide Passing, Places;
    PassingPlaces(t, rail, results);
  }

  /** The fetch that fills a rail: two rails repeat others. */
  predicate Fills(source: RailName, rail: RailName) {
    match rail
    case Trending => source == Popular
    case TopRated => source == CriticallyAcclaimed
    case _ => source == rail
  }

  predicate AnyPasses(t: Items, rail: RailName, fetched: Option<seq<Item>>) {
    fetched.Some? && exists x | x in fetched.value :: t.passes(rail, x)
  }

  /** What a refresh shows. A rail whose fetch holds a passing title is that fetch's first 14, whatever was shown
      before. Only when no fetched title passes it is what it was. Fetched genres, if there are any, are
      the genres. */
  lemma BuildShowsFetched(t: Items, f: Fetches, previous: Option<Payload>, rail: RailName, source: RailName)
    requires Fills(source, rail)
    ensures AnyPasses(t, source, f.rails(source)) ==>
              exists idx :: idx != [] && Picks(t, source, f.rails(source).value, idx)
                            && RailOf(Build(t, f, previous), rail) == Picked(t, f.rails(source).value, idx)
    ensures !AnyPasses(t, source, f.rails(source)) ==>
              RailOf(Build(t, f, previous), rail)
              == MapItems(if previous.Some? then RailOf(previous.value, source) else [], t.withLogo)
    ensures Build(t, f, previous).genres
         == if f.genres != [] then f.genres else if previous.Some? then previous.value.genres else []
  {
    hide Build, Picks, Fresh;
    BuiltRail(t, f, previous, rail);
    BuiltRest(t, f, previous);
    match f.rails(source)
    case None => assert Fresh(t, source, None) == [] by { NothingFetched(t, source); }
    case Some(results) =>
      var idx := FirstPlaces(t, source, results);
      FirstArePicks(t, source, results);
      FirstOfSome(t, source, results);
      FreshPicks(t, source, results);
      PickedIsFresh(t, source, results, idx);
  }

  lemma NothingFetched(t: Items, rail: RailName)
    ensures Fresh(t, rail, None) == []
  {
  }

  lemma PickedIsFresh(t: Items, rail: RailName, results: seq<Item>, idx: seq<nat>)
    requires Picks(t, rail, results, idx) && |idx| == |Fresh(t, rail, Some(results))|
    requires forall i | 0 <= i < |idx| :: Fresh(t, rail, Some(results))[i] == t.slim(results[idx[i]])
    ensures MapItems(Fresh(t, rail, Some(results)), t.withLogo) == Picked(t, results, idx)
  {
    hide Fresh;
  }

  // ---------------------------------------------------------------------------
  // The cache object
  // ---------------------------------------------------------------------------

  datatype Cached = Cached(payload: Payload, refreshedAt: int)

  /** What a visitor that read `row` from the database puts in the cache, and is served. */
  function Restored(cached: Option<Cached>, row: Option<Cached>): Option<Cached> {
    if row.None? || row.value.payload.warming then cached
    else if cached.Some? then cached else row
  }

  function Served(cached: Option<Cached>, row: Option<Cached>): Option<Payload> {
    if row.None? || row.value.payload.warming then None else Some(Restored(cached, row).value.payload)
  }

  /** What a refresh falls back on, given what it reads from the database; None is also a failed read. */
  function Fallback(cached: Option<Cached>, row: Option<Cached>): Option<Payload> {
    if cached.Some? && !cached.value.payload.warming then Some(cached.value.payload)
    else if row.Some? then Some(row.value.payload) else None
  }

  /** What a refresh leaves in the cache; without fetches the library could not be read. */
  function Refreshed(t: Items, cached: Option<Cached>, row: Option<Cached>, fetches: Option<Fetches>, now: int)
      : Option<Cached> {
    if fetches.None? then cached else Some(Cached(Build(t, fetches.value, Fallback(cached, row)), now))
  }

  class HomeBootstrapCache {
    var cached: Option<Cached>
    var refreshInFlight: bool

    constructor ()
      ensures cached == None && !refreshInFlight
    {
      cached, refreshInFlight := None, false;
    }

    /** The swap at the head of `spawn_refresh`: whether this caller starts a refresh. */
    method BeginRefresh() returns (started: bool)
      modifies this`refreshInFlight
      ensures refreshInFlight && started == !old(refreshInFlight)
    {
      var was := refreshInFlight;
      refreshInFlight := true;
      started := !was;
    }

    method EndRefresh()
      modifies this`refreshInFlight
      ensures !refreshInFlight
    {
      refreshInFlight := false;
    }

    /** The tail of `restore_persisted`, after the database was read. */
    method RestorePersisted(row: Option<Cached>) returns (payload: Option<Payload>)
      modifies this`cached
      ensures cached == Restored(old(cached), row) && payload == Served(old(cached), row)
      ensures payload.Some? ==> cached.Some? && payload.value == cached.value.payload
      ensures payload.Some? <==> row.Some? && !row.value.payload.warming
      ensures cached == old(cached) || (old(cached) == None && cached == row && !row.value.payload.warming)
    {
      if row.None? {
        return None;
      }
      if row.value.payload.warming {
        return None;
      }
      if cached.Some? {
        return Some(cached.value.payload);
      }
      cached := row;
      return Some(row.value.payload);
    }

    method StorePayload(payload: Payload, now: int)
      modifies this`cached
      ensures cached == Some(Cached(payload, now))
    {
      cached := Some(Cached(payload, now));
    }

    /** `spawn_refresh` with its task run to the end and nothing in between: what is to be persisted, if
        anything. A second caller changes nothing, the flag comes free, and no rail goes blank. */
    method Refresh(t: Items, row: Option<Cached>, fetches: Option<Fetches>, now: int)
      returns (persisted: Option<Payload>)
      modifies this
      ensures old(refreshInFlight) ==> cached == old(cached) && persisted == None
      ensures refreshInFlight == old(refreshInFlight)
      ensures !old(refreshInFlight) ==> cached == Refreshed(t, old(cached), row, fetches, now)
      ensures !old(refreshInFlight) ==> (persisted.Some? <==> fetches.Some?)
      ensures persisted.Some? ==> cached == Some(Cached(persisted.value, now))
      ensures persisted.Some? ==> !persisted.value.warming && Mirrors(persisted.value)
      ensures persisted.Some? ==>
                fetches.Some? && persisted.value == Build(t, fetches.value, Fallback(old(cached), row))
      ensures var previous := Fallback(old(cached), row);
              persisted.Some? && previous.Some? && Mirrors(previous.value) ==> Covers(persisted.value, previous.value)
    {
      hide Build, Mirrors, Covers;
      var started := BeginRefresh();
      if !started {
        return None;
      }
      var previous: Option<Payload>;
      if cached.Some? && !cached.value.payload.warming {
        previous := Some(cached.value.payload);
      } else {
        previous := if row.Some? then Some(row.value.payload) else None;
      }
      persisted := None;
      if fetches.Some? {
        BuildCovers(t, fetches.value, previous);
        persisted := Some(Build(t, fetches.value, previous));
        StorePayload(persisted.value, now);
      }
      EndRefresh();
    }
  }

  // ---------------------------------------------------------------------------
  // Refresh tasks, visitors and restarts, step by step
  // ---------------------------------------------------------------------------

  /** Where a refresh task stands. */
  datatype Phase =
    | Starting
    | NeedsRow
    | Ready(previous: Option<Payload>)
    | Built(payload: Payload)
    | InMemory(stored: Payload)
    | Writing(written: Payload, stamp: int)
    | Finishing

  /** A visitor that found the cache empty: before and after its database read. */
  datatype Visit = Reading | HasRow(row: Option<Cached>)

  datatype State = State(now: int, cached: Option<Cached>, inFlight: bool, db: Option<Cached>,
                         tasks: map<nat, Phase>, visits: map<nat, Visit>)

  datatype Step =
    | Tick(now: int)
    | Spawn(task: nat)
    | ReadCached(task: nat)
    | ReadRow(task: nat, ok: bool)
    | Assemble(task: nat, fetches: Option<Fetches>)   // None: the library could not be read
    | StoreInMemory(task: nat)
    | Stamp(task: nat)
    | Persist(task: nat, ok: bool)
    | Finish(task: nat)
    | Arrive(visitor: nat)
    | VisitorReads(visitor: nat, ok: bool)
    | VisitorRestores(visitor: nat)
    | Restart

  ghost predicate Enabled(s: State, step: Step) {
    match step
    case Tick(now) => now >= s.now
    case Spawn(task) => task !in s.tasks
    case ReadCached(task) => task in s.tasks && s.tasks[task].Starting?
    case ReadRow(task, _) => task in s.tasks && s.tasks[task].NeedsRow?
    case Assemble(task, _) => task in s.tasks && s.tasks[task].Ready?
    case StoreInMemory(task) => task in s.tasks && s.tasks[task].Built?
    case Stamp(task) => task in s.tasks && s.tasks[task].InMemory?
    case Persist(task, _) => task in s.tasks && s.tasks[task].Writing?
    case Finish(task) => task in s.tasks && s.tasks[task].Finishing?
    case Arrive(visitor) => visitor !in s.visits && s.cached.None?
    case VisitorReads(visitor, _) => visitor in s.visits && s.visits[visitor].Reading?
    case VisitorRestores(visitor) => visitor in s.visits && s.visits[visitor].HasRow?
    case Restart => true
  }

  ghost function Next(t: Items, s: State, step: Step): State
    requires Enabled(s, step)
  {
    match step
    case Tick(now) => s.(now := now)
    case Spawn(task) => if s.inFlight then s else s.(inFlight := true, tasks := s.tasks[task := Starting])
    case ReadCached(task) =>
      s.(tasks := s.tasks[task := if s.cached.Some? && !s.cached.value.payload.warming
                                  then Ready(Some(s.cached.value.payload)) else NeedsRow])
    case ReadRow(task, ok) => s.(tasks := s.tasks[task := Ready(Fallback(None, if ok then s.db else None))])
    case Assemble(task, fetches) =>
      s.(tasks := s.tasks[task := match fetches
                                  case None => Finishing
                                  case Some(f) => Built(Build(t, f, s.tasks[task].previous))])
    case StoreInMemory(task) =>
      s.(cached := Some(Cached(s.tasks[task].payload, s.now)),
          tasks := s.tasks[task := InMemory(s.tasks[task].payload)])
    case Stamp(task) => s.(tasks := s.tasks[task := Writing(s.tasks[task].stored, s.now)])
    case Persist(task, ok) =>
      s.(db := if ok then Some(Cached(s.tasks[task].written, s.tasks[task].stamp)) else s.db,
         tasks := s.tasks[task := Finishing])
    case Finish(task) => s.(inFlight := false, tasks := s.tasks - {task})
    case Arrive(visitor) => s.(visits := s.visits[visitor := Reading])
    case VisitorReads(visitor, ok) => s.(visits := s.visits[visitor := HasRow(if ok then s.db else None)])
    case VisitorRestores(visitor) =>
      s.(cached := Restored(s.cached, s.visits[visitor].row), visits := s.visits - {visitor})
    case Restart => s.(cached := None, inFlight := false, tasks := map[], visits := map[])
  }

  /** The row a visitor would be shown. */
  function Row(s: State): Option<Payload> {
    if s.db.Some? && !s.db.value.payload.warming then Some(s.db.value.payload) else None
  }

  predicate RowShows(s: State) { Row(s).Some? && Shows(Row(s).value) }

  /** A refresh task's database read may fail, but not while the row shows anything. */
  predicate HarmlessRead(s: State, step: Step) { step.ReadRow? && !step.ok ==> !RowShows(s) }

  /** The steps of a refresh that nothing interrupts, from a state in which none is under way. */
  ghost function RefreshSteps(s: State, task: nat, fetches: Option<Fetches>, readOk: bool, writeOk: bool): seq<Step> {
    var read := if s.cached.Some? && !s.cached.value.payload.warming then [] else [ReadRow(task, readOk)];
    [Spawn(task)] + ([ReadCached(task)] + (read + BuildSteps(task, fetches, writeOk)))
  }

  ghost function BuildSteps(task: nat, fetches: Option<Fetches>, writeOk: bool): seq<Step> {
    [Assemble(task, fetches)]
    + ((if fetches.None? then [] else [StoreInMemory(task), Stamp(task), Persist(task, writeOk)]) + [Finish(task)])
  }

  ghost function Play(t: Items, s: State, steps: seq<Step>): Option<State>
    decreases |steps|
  {
    if steps == [] then Some(s)
    else if !Enabled(s, steps[0]) then None
    else Play(t, Next(t, s, steps[0]), steps[1..])
  }

  lemma PlayCons(t: Items, s: State, step: Step, steps: seq<Step>)
    requires Enabled(s, step)
    ensures Play(t, s, [step] + steps) == Play(t, Next(t, s, step), steps)
  {
    hide Next, Enabled;
    assert ([step] + steps)[1..] == steps;
  }

  lemma BuildPlays(t: Items, s: State, task: nat, previous: Option<Payload>, fetches: Option<Fetches>, writeOk: bool)
    requires s.inFlight && s.tasks == map[task := Ready(previous)]
    ensures var cached := if fetches.None? then s.cached else Some(Cached(Build(t, fetches.value, previous), s.now));
            Play(t, s, BuildSteps(task, fetches, writeOk))
            == Some(s.(cached := cached, db := if fetches.Some? && writeOk then cached else s.db,
                       tasks := map[], inFlight := false))
  {
    hide Build, Play;
    if fetches.None? {
      var s1 := s.(tasks := map[task := Finishing]);
      PlayCons(t, s, Assemble(task, fetches), [Finish(task)]);
      PlayFinish(t, s1, task);
      assert s1 == Next(t, s, Assemble(task, fetches));
      assert BuildSteps(task, fetches, writeOk) == [Assemble(task, fetches)] + [Finish(task)];
    } else {
      var p := Build(t, fetches.value, previous);
      var s1 := s.(tasks := map[task := Built(p)]);
      PlayCons(t, s, Assemble(task, fetches),
               [StoreInMemory(task), Stamp(task), Persist(task, writeOk)] + [Finish(task)]);
      StorePlays(t, s1, task, p, writeOk);
      assert s1 == Next(t, s, Assemble(task, fetches));
    }
  }

  lemma StorePlays(t: Items, s: State, task: nat, p: Payload, writeOk: bool)
    requires s.tasks == map[task := Built(p)]
    ensures var cached := Some(Cached(p, s.now));
            Play(t, s, [StoreInMemory(task), Stamp(task), Persist(task, writeOk)] + [Finish(task)])
            == Some(s.(cached := cached, db := if writeOk then cached else s.db, tasks := map[], inFlight := false))
  {
    hide Build, Play;
    var s2 := s.(cached := Some(Cached(p, s.now)), tasks := map[task := InMemory(p)]);
    var s3 := s2.(tasks := map[task := Writing(p, s.now)]);
    PlayCons(t, s, StoreInMemory(task), [Stamp(task)] + ([Persist(task, writeOk)] + [Finish(task)]));
    PlayCons(t, s2, Stamp(task), [Persist(task, writeOk)] + [Finish(task)]);
    assert s2 == Next(t, s, StoreInMemory(task));
    assert s3 == Next(t, s2, Stamp(task));
    PersistPlays(t, s3, task, p, writeOk);
    assert [StoreInMemory(task), Stamp(task), Persist(task, writeOk)] + [Finish(task)]
        == [StoreInMemory(task)] + ([Stamp(task)] + ([Persist(task, writeOk)] + [Finish(task)]));
  }

  lemma PersistPlays(t: Items, s: State, task: nat, p: Payload, writeOk: bool)
    requires s.tasks == map[task := Writing(p, s.now)]
    ensures Play(t, s, [Persist(task, writeOk)] + [Finish(task)])
         == Some(s.(db := if writeOk then Some(Cached(p, s.now)) else s.db, tasks := map[], inFlight := false))
  {
    hide Build, Play;
    var s4 := s.(db := if writeOk then Some(Cached(p, s.now)) else s.db, tasks := map[task := Finishing]);
    PlayCons(t, s, Persist(task, writeOk), [Finish(task)]);
    assert s4 == Next(t, s, Persist(task, writeOk));
    PlayFinish(t, s4, task);
  }

  lemma PlayFinish(t: Items, s: State, task: nat)
    requires s.tasks == map[task := Finishing]
    ensures Play(t, s, [Finish(task)]) == Some(s.(inFlight := false, tasks := map[]))
  {
    hide Build;
    assert [Finish(task)][1..] == [];
    assert s.tasks - {task} == map[];
  }

  /** Step by step such a refresh leaves in the cache what `Refresh` does, and persists the same. */
  lemma UndisturbedRefresh(t: Items, s: State, task: nat, fetches: Option<Fetches>, readOk: bool, writeOk: bool)
    requires !s.inFlight && s.tasks == map[]
    ensures var cached := Refreshed(t, s.cached, if readOk then s.db else None, fetches, s.now);
            Play(t, s, RefreshSteps(s, task, fetches, readOk, writeOk))
            == Some(s.(cached := cached, db := if fetches.Some? && writeOk then cached else s.db))
  {
    hide Build, Play, BuildSteps;
    var s1 := s.(inFlight := true, tasks := map[task := Starting]);
    var rest := BuildSteps(task, fetches, writeOk);
    var previous := Fallback(s.cached, if readOk then s.db else None);
    var ready := s1.(tasks := map[task := Ready(previous)]);
    if s.cached.Some? && !s.cached.value.payload.warming {
      assert [] + rest == rest;
      PlayCons(t, s, Spawn(task), [ReadCached(task)] + rest);
      PlayCons(t, s1, ReadCached(task), rest);
      assert ready == Next(t, s1, ReadCached(task));
    } else {
      var s2 := s1.(tasks := map[task := NeedsRow]);
      PlayCons(t, s, Spawn(task), [ReadCached(task)] + ([ReadRow(task, readOk)] + rest));
      PlayCons(t, s1, ReadCached(task), [ReadRow(task, readOk)] + rest);
      PlayCons(t, s2, ReadRow(task, readOk), rest);
      assert s2 == Next(t, s1, ReadCached(task));
      assert ready == Next(t, s2, ReadRow(task, readOk));
    }
    BuildPlays(t, ready, task, previous, fetches, writeOk);
  }

  // ---------------------------------------------------------------------------
  // What every step keeps
  // ---------------------------------------------------------------------------

  /** What a refresh must not blank: the payload in memory, or before there is one, the row. */
  function Base(s: State): Option<Payload> {
    if s.cached.Some? then Some(s.cached.value.payload) else Row(s)
  }

  predicate CoversBase(s: State, p: Payload) {
    Base(s).Some? ==> Covers(p, Base(s).value)
  }

  predicate PhaseOk(s: State, phase: Phase) {
    match phase
    case NeedsRow => s.cached.Some? ==> s.db == s.cached
    case Ready(previous) => Base(s).Some? && Shows(Base(s).value)
        ==> previous.Some? && Mirrors(previous.value) && Covers(previous.value, Base(s).value)
    case Built(payload) => Mirrors(payload) && !payload.warming && CoversBase(s, payload)
    case InMemory(stored) => s.cached.Some? && s.cached.value.payload == stored
    case Writing(written, stamp) =>
      s.cached.Some? && s.cached.value.payload == written && stamp <= s.now
          && (s.db.Some? ==> s.db.value.refreshedAt <= stamp)
    case _ => true
  }

  predicate VisitOk(s: State, visit: Visit) {
    visit.HasRow? && visit.row.Some? && s.cached.None? ==> s.db == visit.row
  }

  /** Flag and tasks agree; there is no task or one. */
  ghost predicate SingleFlight(s: State) {
    && (s.inFlight <==> s.tasks != map[])
    && forall a, b | a in s.tasks && b in s.tasks :: a == b
  }

  ghost predicate MemoryOk(s: State) {
    && (s.cached.Some? ==> !s.cached.value.payload.warming)
    && (s.cached.Some? ==> Mirrors(s.cached.value.payload) && s.cached.value.refreshedAt <= s.now)
    && (Row(s).Some? ==> Mirrors(Row(s).value)) && (s.db.Some? ==> s.db.value.refreshedAt <= s.now)
    && (s.cached.Some? && Row(s).Some? ==> Covers(s.cached.value.payload, Row(s).value))
  }

  ghost predicate Inv(s: State) {
    && SingleFlight(s) && MemoryOk(s)
    && (forall a | a in s.tasks :: PhaseOk(s, s.tasks[a]))
    && forall v | v in s.visits :: VisitOk(s, s.visits[v])
  }

  lemma CoversTrans(a: Payload, b: Payload, c: Payload)
    requires Covers(a, b) && Covers(b, c)
    ensures Covers(a, c)
  {
  }

  lemma CoversSelf(a: Payload)
    ensures Covers(a, a)
  {
  }

  lemma SingleFlightStep(t: Items, s: State, step: Step)
    requires SingleFlight(s) && Enabled(s, step)
    ensures SingleFlight(Next(t, s, step))
  {
    hide Build, Restored;
    var after := Next(t, s, step).tasks;
    match step
    case Finish(task) => assert after == map[];
    case Spawn(task) =>
      if !s.inFlight { assert task in after; }
    case ReadCached(task) => assert task in after;
    case ReadRow(task, _) => assert task in after;
    case Assemble(task, _) => assert task in after;
    case StoreInMemory(task) => assert task in after;
    case Stamp(task) => assert task in after;
    case Persist(task, _) => assert task in after;
    case _ =>
  }

  lemma MemoryStep(t: Items, s: State, step: Step)
    requires Inv(s) && Enabled(s, step)
    ensures MemoryOk(Next(t, s, step))
  {
    hide Build, Covers, Mirrors;
    match step
    case StoreInMemory(task) =>
      assert PhaseOk(s, s.tasks[task]);
      if s.cached.Some? && Row(s).Some? {
        CoversTrans(s.tasks[task].payload, s.cached.value.payload, Row(s).value);
      }
    case Persist(task, ok) =>
      assert PhaseOk(s, s.tasks[task]);
      CoversSelf(s.tasks[task].written);
    case VisitorRestores(visitor) =>
      assert VisitOk(s, s.visits[visitor]);
      if s.db.Some? { CoversSelf(s.db.value.payload); }
    case _ =>
  }

  /** A step that leaves memory, row and clock as far as they matter keeps every phase in order. */
  lemma PhaseFrame(s: State, after: State, phase: Phase)
    requires PhaseOk(s, phase) && s.cached == after.cached && s.db == after.db && s.now <= after.now
    ensures PhaseOk(after, phase)
  {
  }

  lemma OwnPhaseStep(t: Items, s: State, step: Step, task: nat)
    requires Inv(s) && Enabled(s, step) && HarmlessRead(s, step) && task in Next(t, s, step).tasks
    requires task !in s.tasks || Next(t, s, step).tasks[task] != s.tasks[task]
    ensures PhaseOk(Next(t, s, step), Next(t, s, step).tasks[task])
  {
    hide Build, Covers, Mirrors;
    match step
    case ReadCached(_) =>
      if s.cached.Some? { CoversSelf(s.cached.value.payload); }
    case ReadRow(_, _) =>
      assert PhaseOk(s, s.tasks[task]);
      if s.db.Some? { CoversSelf(s.db.value.payload); }
    case Assemble(_, fetches) =>
      assert PhaseOk(s, s.tasks[task]);
      if fetches.Some? {
        BuildCovers(t, fetches.value, s.tasks[task].previous);
        if Base(s).Some? {
          if Shows(Base(s).value) {
            CoversTrans(Build(t, fetches.value, s.tasks[task].previous), s.tasks[task].previous.value, Base(s).value);
          } else {
            NothingToCover(Build(t, fetches.value, s.tasks[task].previous), Base(s).value);
          }
        }
      }
    case Stamp(_) => assert PhaseOk(s, s.tasks[task]);
    case _ =>
  }

  lemma OtherPhaseStep(t: Items, s: State, step: Step, task: nat)
    requires Inv(s) && Enabled(s, step) && task in Next(t, s, step).tasks && task in s.tasks
    requires Next(t, s, step).tasks[task] == s.tasks[task]
    ensures PhaseOk(Next(t, s, step), s.tasks[task])
  {
    hide Build, Covers, Mirrors;
    var after := Next(t, s, step);
    assert PhaseOk(s, s.tasks[task]);
    if step.VisitorRestores? {
      assert VisitOk(s, s.visits[step.visitor]);
      assert Base(after) == Base(s);
    } else if step.Tick? || step.Spawn? || step.Arrive? || step.VisitorReads? {
      PhaseFrame(s, after, s.tasks[task]);
    }
  }

  lemma VisitStep(t: Items, s: State, step: Step, visitor: nat)
    requires Inv(s) && Enabled(s, step) && visitor in Next(t, s, step).visits
    ensures VisitOk(Next(t, s, step), Next(t, s, step).visits[visitor])
  {
    hide Build, Covers, Mirrors;
    if visitor in s.visits { assert VisitOk(s, s.visits[visitor]); }
    match step
    case Persist(task, _) => assert PhaseOk(s, s.tasks[task]);
    case _ =>
  }

  lemma InvStep(t: Items, s: State, step: Step)
    requires Inv(s) && Enabled(s, step) && HarmlessRead(s, step)
    ensures Inv(Next(t, s, step))
  {
    hide Next, MemoryOk, SingleFlight, PhaseOk, VisitOk, Enabled;
    SingleFlightStep(t, s, step);
    MemoryStep(t, s, step);
    var after := Next(t, s, step);
    forall task | task in after.tasks ensures PhaseOk(after, after.tasks[task]) {
      if task in s.tasks && after.tasks[task] == s.tasks[task] {
        OtherPhaseStep(t, s, step, task);
      } else {
        OwnPhaseStep(t, s, step, task);
      }
    }
    forall visitor | visitor in after.visits ensures VisitOk(after, after.visits[visitor]) {
      VisitStep(t, s, step, visitor);
    }
  }

  // ---------------------------------------------------------------------------
  // Every run
  // ---------------------------------------------------------------------------

  /** A process that was just started over some database row. */
  ghost predicate Initial(s: State) {
    && s.cached == None && !s.inFlight && s.tasks == map[] && s.visits == map[]
    && (Row(s).Some? ==> Mirrors(Row(s).value)) && (s.db.Some? ==> s.db.value.refreshedAt <= s.now)
  }

  /** `states` are the states a run passes through. */
  ghost predicate IsRun(t: Items, states: seq<State>, steps: seq<Step>) {
    && |states| == |steps| + 1 && Initial(states[0])
    && forall i | 0 <= i < |steps| :: Enabled(states[i], steps[i]) && states[i + 1] == Next(t, states[i], steps[i])
  }

  ghost predicate HarmlessReads(states: seq<State>, steps: seq<Step>)
    requires |states| == |steps| + 1
  {
    forall i | 0 <= i < |steps| :: HarmlessRead(states[i], steps[i])
  }

  lemma {:induction false} InvAt(t: Items, states: seq<State>, steps: seq<Step>, i: nat)
    requires IsRun(t, states, steps) && HarmlessReads(states, steps) && i < |states|
    ensures Inv(states[i])
  {
    hide Inv, Next, Enabled, Initial, HarmlessRead;
    if i == 0 {
      InitialInv(states[0]);
    } else {
      InvAt(t, states, steps, i - 1);
      InvStep(t, states[i - 1], steps[i - 1]);
    }
  }

  lemma InitialInv(s: State)
    requires Initial(s)
    ensures Inv(s)
  {
  }

  lemma {:induction false} SingleFlightAt(t: Items, states: seq<State>, steps: seq<Step>, i: nat)
    requires IsRun(t, states, steps) && i < |states|
    ensures SingleFlight(states[i])
  {
    hide SingleFlight, Next, Enabled, Initial;
    if i == 0 {
      InitialInv(states[0]);
      InvIsSingleFlight(states[0]);
    } else {
      SingleFlightAt(t, states, steps, i - 1);
      SingleFlightStep(t, states[i - 1], steps[i - 1]);
    }
  }

  lemma InvIsSingleFlight(s: State)
    requires Inv(s)
    ensures SingleFlight(s)
  {
  }

  /** At most one refresh task runs, in every state of every run, whatever fails. */
  lemma OneRefreshInFlight(t: Items, states: seq<State>, steps: seq<Step>, i: nat)
    requires IsRun(t, states, steps) && i < |states|
    ensures |states[i].tasks| <= 1 && (states[i].inFlight <==> |states[i].tasks| == 1)
  {
    hide Next, Enabled, Initial;
    SingleFlightAt(t, states, steps, i);
    var tasks := states[i].tasks.Keys;
    if task :| task in tasks {
      assert tasks == {task};
    }
    assert |tasks| == |states[i].tasks|;
  }

  predicate NoRestart(steps: seq<Step>, i: nat, j: nat)
    requires i <= j <= |steps|
  {
    forall k | i <= k < j :: !steps[k].Restart?
  }

  lemma MemoryMovesForward(t: Items, s: State, step: Step)
    requires Inv(s) && Enabled(s, step) && s.cached.Some? && !step.Restart?
    ensures var after := Next(t, s, step);
            after.cached.Some? && Covers(after.cached.value.payload, s.cached.value.payload)
            && s.cached.value.refreshedAt <= after.cached.value.refreshedAt
  {
    hide Build, Covers, Mirrors;
    CoversSelf(s.cached.value.payload);
    match step
    case StoreInMemory(task) => assert PhaseOk(s, s.tasks[task]);
    case _ =>
  }

  /** Until a restart a rail or the genre list that was shown never goes blank and the time of the last
      refresh never goes back, over every run in which database reads fail only while the row
      shows nothing, however the fetches and the database writes go. */
  lemma {:induction false} RailsNeverGoBlank(t: Items, states: seq<State>, steps: seq<Step>, i: nat, j: nat)
    requires IsRun(t, states, steps) && HarmlessReads(states, steps) && i <= j < |states| && NoRestart(steps, i, j)
    requires states[i].cached.Some?
    ensures states[j].cached.Some? && Covers(states[j].cached.value.payload, states[i].cached.value.payload)
    ensures states[i].cached.value.refreshedAt <= states[j].cached.value.refreshedAt
  {
    hide Inv, Next, Enabled, Initial, Covers, HarmlessReads;
    if i == j {
      CoversSelf(states[i].cached.value.payload);
    } else {
      RailsNeverGoBlank(t, states, steps, i, j - 1);
      InvAt(t, states, steps, j - 1);
      MemoryMovesForward(t, states[j - 1], steps[j - 1]);
      CoversTrans(states[j].cached.value.payload, states[j - 1].cached.value.payload, states[i].cached.value.payload);
    }
  }

  lemma RowMovesForward(t: Items, s: State, step: Step)
    requires Inv(s) && Enabled(s, step) && Row(s).Some?
    ensures var after := Next(t, s, step);
            Row(after).Some? && Covers(Row(after).value, Row(s).value)
            && s.db.value.refreshedAt <= after.db.value.refreshedAt
  {
    hide Build, Covers, Mirrors;
    CoversSelf(Row(s).value);
    match step
    case Persist(task, _) => assert PhaseOk(s, s.tasks[task]);
    case _ =>
  }

  /** Across restarts the same holds of what the database keeps. */
  lemma {:induction false} PersistedRailsNeverGoBlank(t: Items, states: seq<State>, steps: seq<Step>, i: nat, j: nat)
    requires IsRun(t, states, steps) && HarmlessReads(states, steps) && i <= j < |states| && Row(states[i]).Some?
    ensures Row(states[j]).Some? && Covers(Row(states[j]).value, Row(states[i]).value)
    ensures states[i].db.value.refreshedAt <= states[j].db.value.refreshedAt
  {
    hide Inv, Next, Enabled, Initial, Covers, HarmlessReads;
    if i == j {
      CoversSelf(Row(states[i]).value);
    } else {
      PersistedRailsNeverGoBlank(t, states, steps, i, j - 1);
      InvAt(t, states, steps, j - 1);
      RowMovesForward(t, states[j - 1], steps[j - 1]);
      CoversTrans(Row(states[j]).value, Row(states[j - 1]).value, Row(states[i]).value);
    }
  }

  /** Nothing but real payloads is ever cached, and what is cached shows everything a real row shows. */
  lemma CachedIsReal(t: Items, states: seq<State>, steps: seq<Step>, i: nat)
    requires IsRun(t, states, steps) && HarmlessReads(states, steps) && i < |states| && states[i].cached.Some?
    ensures !states[i].cached.value.payload.warming
    ensures Row(states[i]).Some? ==> Covers(states[i].cached.value.payload, Row(states[i]).value)
  {
    hide Next, Enabled, Initial, HarmlessReads, Covers;
    InvAt(t, states, steps, i);
  }

  // ---------------------------------------------------------------------------
  // Where the promise ends
  // ---------------------------------------------------------------------------

  const ALL_FAILED := Fetches(k => None, [])

  ghost predicate Goes(t: Items, s: State, step: Step, after: State) { Enabled(s, step) && after == Next(t, s, step) }

  /** A refresh whose database read fails while a visitor restores the row. */
  const UNLUCKY := [Spawn(0), ReadCached(0), Arrive(1), VisitorReads(1, true), ReadRow(0, false), VisitorRestores(1),
                    Assemble(0, Some(ALL_FAILED)), StoreInMemory(0)]

  function UnluckyStates(row: Cached, blank: Payload, now: int): seq<State> {
    var s0 := State(now, None, false, Some(row), map[], map[]);
    var s1 := s0.(inFlight := true, tasks := map[0 := Starting]);
    var s2 := s1.(tasks := map[0 := NeedsRow]);
    var s3 := s2.(visits := map[1 := Reading]);
    var s4 := s3.(visits := map[1 := HasRow(Some(row))]);
    var s5 := s4.(tasks := map[0 := Ready(None)]);
    var s6 := s5.(cached := Some(row), visits := map[]);
    var s7 := s6.(tasks := map[0 := Built(blank)]);
    var s8 := s7.(cached := Some(Cached(blank, now)), tasks := map[0 := InMemory(blank)]);
    [s0, s1, s2, s3, s4, s5, s6, s7, s8]
  }

  lemma UnluckyStart(t: Items, row: Cached, blank: Payload, now: int, i: nat)
    requires i < 4
    ensures var states := UnluckyStates(row, blank, now); Goes(t, states[i], UNLUCKY[i], states[i + 1])
  {
  }

  lemma UnluckyEnd(t: Items, row: Cached, now: int, i: nat)
    requires 4 <= i < 8 && !row.payload.warming
    ensures var states := UnluckyStates(row, Build(t, ALL_FAILED, None), now);
            Goes(t, states[i], UNLUCKY[i], states[i + 1])
  {
    hide Build;
  }

  lemma RunFromGoes(t: Items, states: seq<State>, steps: seq<Step>)
    requires |states| == |steps| + 1 && Initial(states[0])
    requires forall i | 0 <= i < |steps| :: Goes(t, states[i], steps[i], states[i + 1])
    ensures IsRun(t, states, steps)
  {
    hide Initial, Enabled, Next;
    forall i | 0 <= i < |steps|
      ensures Enabled(states[i], steps[i]) && states[i + 1] == Next(t, states[i], steps[i])
    {
      assert Goes(t, states[i], steps[i], states[i + 1]);
    }
  }

  lemma UnluckyShape(row: Cached, blank: Payload, now: int)
    requires Mirrors(row.payload) && row.refreshedAt <= now
    ensures var states := UnluckyStates(row, blank, now);
            |states| == 9 && Initial(states[0]) && states[6].cached == Some(row)
            && states[8].cached == Some(Cached(blank, now))
  {
    hide Mirrors;
  }

  /** A visitor restores the row while a refresh whose own database read fails has nothing to fall back
      on and its fetches fail too: in this run the page goes blank exactly if the row shows anything. */
  lemma FailedReadBlanksExactly(t: Items, row: Cached, now: int) returns (states: seq<State>)
    requires Mirrors(row.payload) && !row.payload.warming && row.refreshedAt <= now
    ensures IsRun(t, states, UNLUCKY) && NoRestart(UNLUCKY, 6, 8)
    ensures states[6].cached == Some(row) && states[8].cached.Some? && !Shows(states[8].cached.value.payload)
    ensures Covers(states[8].cached.value.payload, states[6].cached.value.payload) <==> !Shows(row.payload)
  {
    var blank := Build(t, ALL_FAILED, None);
    NothingBuilt(t);
    states := UnluckyStates(row, blank, now);
    hide UnluckyStates, Build, Next, Enabled, Shows, Covers, Initial, IsRun;
    UnluckyShape(row, blank, now);
    forall i | 0 <= i < 8 ensures Goes(t, states[i], UNLUCKY[i], states[i + 1]) {
      if i < 4 { UnluckyStart(t, row, blank, now, i); } else { UnluckyEnd(t, row, now, i); }
    }
    RunFromGoes(t, states, UNLUCKY);
    BlankCoversExactly(blank, row.payload);
  }

  lemma BlankCoversExactly(blank: Payload, before: Payload)
    requires !Shows(blank)
    ensures Covers(blank, before) <==> !Shows(before)
  {
  }

  lemma NothingBuilt(t: Items)
    ensures !Shows(Build(t, ALL_FAILED, None))
  {
    hide Build, MapItems;
    BuiltRest(t, ALL_FAILED, None);
    forall rail: RailName ensures RailOf(Build(t, ALL_FAILED, None), rail) == [] {
      BuiltRail(t, ALL_FAILED, None, rail);
    }
  }
}
