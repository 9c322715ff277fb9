/** `SportsStreamResolveCache` of src/football.rs: its success and failure tables, its lock table
    and its permits, as one object that is called one operation at a time. `ResolveProtocol`
    interleaves these operations. */
module ResolveTables {
  import opened Text
  import StableSort

  const SUCCESS_TTL_MS := 60_000
  const FAILURE_TTL_MS := 45_000
  const MAX_ENTRIES := 512
  const I64_MAX := 0x7fff_ffff_ffff_ffff

  datatype Cached<+T> = Cached(value: T, cachedAt: int, expiresAt: int)

  type Table<T> = map<string, Cached<T>>

  datatype Stream = Stream(playbackUrl: string, playerPageUrl: string, playbackType: string,
                           candidateIndex: nat, attemptedStreams: nat)

  function SaturatingAdd(a: int, b: int): int {
    if a + b > I64_MAX then I64_MAX else a + b
  }

  function Stamped<T>(value: T, now: int, ttl: int): Cached<T> {
    Cached(value, now, SaturatingAdd(now, ttl))
  }

  predicate IsFresh<T>(table: Table<T>, key: string, now: int) {
    key in table && now <= table[key].expiresAt
  }

  function Lookup<T>(table: Table<T>, key: string, now: int): Option<T> {
    if IsFresh(table, key, now) then Some(table[key].value) else None
  }

  function FreshOnly<T>(table: Table<T>, now: int): Table<T> {
    map key | key in table && now <= table[key].expiresAt :: table[key]
  }

  ghost predicate SubTable<T(!new)>(small: Table<T>, big: Table<T>) {
    forall key | key in small :: key in big && small[key] == big[key]
  }

  /** What trimming leaves: everything when it fits, else 512 entries none of which is
      older than one that went. Entries of equal age may go in any order. */
  ghost predicate OldestGone<T(!new)>(before: Table<T>, after: Table<T>) {
    && SubTable(after, before)
    && |after| == (if |before| <= 512 then |before| else 512)
    && forall gone, kept | gone in before && gone !in after && kept in after ::
         before[gone].cachedAt <= before[kept].cachedAt
  }

  predicate Older(a: (string, int), b: (string, int)) { a.1 <= b.1 }

  ghost predicate Distinct<T(!new)>(s: seq<T>) {
    forall i, j | 0 <= i < j < |s| :: s[i] != s[j]
  }

  lemma {:induction false} DistinctByCount<T(!new)>(s: seq<T>)
    ensures Distinct(s) <==> forall x :: multiset(s)[x] <= 1
  {
    if s != [] {
      var n := |s| - 1;
      var front, last := s[..n], s[n];
      assert s == front + [last];
      DistinctByCount(front);
      if Distinct(s) {
        assert Distinct(front);
        assert last !in multiset(front);
        assert forall x :: multiset(s)[x] <= 1;
      }
      if forall x :: multiset(s)[x] <= 1 {
        forall x ensures multiset(front)[x] <= 1 { assert multiset(s)[x] <= 1; }
        assert multiset(s)[last] <= 1;
        assert last !in multiset(front);
        assert last !in front;
      }
    }
  }

  /** Every entry of the table once, with its age. */
  ghost predicate Lists<T(!new)>(listing: seq<(string, int)>, table: Table<T>) {
    && |listing| == |table|
    && Distinct(listing)
    && (forall item | item in listing :: item.0 in table && item.1 == table[item.0].cachedAt)
    && (forall key | key in table :: (key, table[key].cachedAt) in listing)
  }

  /** The order in which a map is listed is arbitrary. */
  method ListEntries<T(!new)>(table: Table<T>) returns (listing: seq<(string, int)>)
    ensures Lists(listing, table)
  {
    listing := [];
    var keys := table.Keys;
    while keys != {}
      invariant keys <= table.Keys && |keys| + |listing| == |table|
      invariant forall item | item in listing :: item.0 in table && item.0 !in keys && item.1 == table[item.0].cachedAt
      invariant forall key | key in table && key !in keys :: (key, table[key].cachedAt) in listing
      invariant Distinct(listing)
      decreases |keys|
    {
      var key :| key in keys;
      keys := keys - {key};
      listing := listing + [(key, table[key].cachedAt)];
    }
  }

  lemma SortedListing<T(!new)>(listing: seq<(string, int)>, table: Table<T>)
    requires Lists(listing, table)
    ensures Lists(StableSort.Sort(listing, Older), table)
    ensures StableSort.Sorted(StableSort.Sort(listing, Older), Older)
  {
    var sorted := StableSort.Sort(listing, Older);
    StableSort.SortIsSorted(listing, Older);
    StableSort.SortKeepsElements(listing, Older);
    DistinctByCount(listing);
    DistinctByCount(sorted);
    forall x ensures x in sorted <==> x in listing {
      assert x in multiset(sorted) <==> x in multiset(listing);
    }
  }

  method ListOldestFirst<T(!new)>(table: Table<T>) returns (sorted: seq<(string, int)>)
    ensures Lists(sorted, table) && StableSort.Sorted(sorted, Older)
  {
    var listing := ListEntries(table);
    SortedListing(listing, table);
    sorted := StableSort.Sort(listing, Older);
  }

  function KeysOf(listing: seq<(string, int)>): set<string> {
    set item | item in listing :: item.0
  }

  lemma {:induction false} CountKeys<T(!new)>(sorted: seq<(string, int)>, table: Table<T>, n: nat)
    requires Lists(sorted, table) && n <= |sorted|
    ensures |KeysOf(sorted[..n])| == n && KeysOf(sorted[..n]) <= table.Keys
  {
    if n > 0 {
      CountKeys(sorted, table, n - 1);
      var last := sorted[n - 1];
      assert sorted[..n] == sorted[..n - 1] + [last];
      assert KeysOf(sorted[..n]) == KeysOf(sorted[..n - 1]) + {last.0};
      forall item | item in sorted[..n - 1] ensures item.0 != last.0 {
        var i :| 0 <= i < n - 1 && sorted[i] == item;
        assert sorted[i] in sorted && last in sorted;
      }
    }
  }

  lemma DroppedAreOlder<T(!new)>(table: Table<T>, sorted: seq<(string, int)>, n: nat, dropped: string, kept: string)
    requires Lists(sorted, table) && StableSort.Sorted(sorted, Older) && n <= |sorted|
    requires dropped in KeysOf(sorted[..n]) && kept in table && kept !in KeysOf(sorted[..n])
    ensures dropped in table && table[dropped].cachedAt <= table[kept].cachedAt
  {
    var item :| item in sorted[..n] && item.0 == dropped;
    var i :| 0 <= i < n && sorted[i] == item;
    assert sorted[i] in sorted;
    var last := (kept, table[kept].cachedAt);
    assert last in sorted;
    var j :| 0 <= j < |sorted| && sorted[j] == last;
    assert Older(sorted[i], sorted[j]);
  }

  lemma RemoveOldest<T(!new)>(table: Table<T>, gone: set<string>)
    requires gone <= table.Keys && |gone| + MAX_ENTRIES == |table|
    requires forall dropped, kept | dropped in gone && kept in table && kept !in gone ::
               table[dropped].cachedAt <= table[kept].cachedAt
    ensures OldestGone(table, table - gone)
  {
    KeysAfterRemoval(table, gone);
  }

  lemma KeysAfterRemoval<T>(table: Table<T>, gone: set<string>)
    requires gone <= table.Keys
    ensures |table - gone| == |table| - |gone|
  {
    assert (table - gone).Keys == table.Keys - gone;
    assert |(table - gone).Keys| == |table.Keys| - |gone|;
  }

  lemma KeysSnoc(entries: seq<(string, int)>, i: nat)
    requires i < |entries|
    ensures KeysOf(entries[..i + 1]) == KeysOf(entries[..i]) + {entries[i].0}
  {
    assert entries[..i + 1] == entries[..i] + [entries[i]];
  }

  lemma NoKeys()
    ensures KeysOf([]) == {}
  {
  }

  /** The trim shared by both tables. */
  method TrimTable<T(!new)>(table: Table<T>) returns (trimmed: Table<T>)
    ensures OldestGone(table, trimmed)
  {
    if |table| <= MAX_ENTRIES {
      return table;
    }
    hide OldestGone, Lists, Distinct, KeysOf, StableSort.Sorted;
    var entries := ListOldestFirst(table);
    var overflow := |entries| - MAX_ENTRIES;
    trimmed := table;
    assert entries[..0] == [];
    NoKeys();
    for i := 0 to overflow
      invariant trimmed == table - KeysOf(entries[..i])
    {
      KeysSnoc(entries, i);
      trimmed := trimmed - {entries[i].0};
    }
    ghost var gone := KeysOf(entries[..overflow]);
    CountKeys(entries, table, overflow);
    forall dropped, kept | dropped in gone && kept in table && kept !in gone
      ensures table[dropped].cachedAt <= table[kept].cachedAt
    {
      DroppedAreOlder(table, entries, overflow, dropped, kept);
    }
    RemoveOldest(table, gone);
  }

  /** A new entry survives the trim that follows its insertion whenever some other entry is older. */
  lemma NewerThanAnotherSurvives<T(!new)>(before: Table<T>, after: Table<T>, key: string, other: string)
    requires OldestGone(before, after) && |before| <= 513
    requires key in before && other in before && before[other].cachedAt < before[key].cachedAt
    ensures key in after
  {
    var others := before.Keys - {key, other};
    assert |others| == |before.Keys| - 2;
    if key !in after {
      assert other !in after;
      assert after.Keys <= others;
      Subset(after.Keys, others);
    }
  }

  lemma {:induction false} Subset<T>(small: set<T>, big: set<T>)
    requires small <= big
    ensures |small| <= |big|
  {
    if small != {} {
      var x :| x in small;
      Subset(small - {x}, big - {x});
    }
  }

  /** The cache object. Mutexes are named by number; `referenced` stands for the mutexes whose
      reference count exceeds the one the lock table itself holds. */
  class SportsStreamResolveCache {
    var entries: Table<Stream>
    var failures: Table<string>
    var locks: map<string, nat>
    var nextMutex: nat
    var permits: nat
    const maxConcurrent: nat

    constructor (maxConcurrent: nat)
      ensures entries == map[] && failures == map[] && locks == map[] && nextMutex == 0
      ensures this.maxConcurrent == permits == if maxConcurrent > 1 then maxConcurrent else 1
    {
      var atLeastOne := if maxConcurrent > 1 then maxConcurrent else 1;
      entries, failures, locks, nextMutex := map[], map[], map[], 0;
      permits := atLeastOne;
      this.maxConcurrent := atLeastOne;
    }

    method Fresh(key: string, now: int) returns (resolved: Option<Stream>)
      ensures resolved == Lookup(entries, key, now)
    {
      if key !in entries { return None; }
      var cached := entries[key];
      resolved := if now <= cached.expiresAt then Some(cached.value) else None;
    }

    method FreshFailure(key: string, now: int) returns (message: Option<string>)
      ensures message == Lookup(failures, key, now)
    {
      if key !in failures { return None; }
      var cached := failures[key];
      message := if now <= cached.expiresAt then Some(cached.value) else None;
    }

    method Insert(key: string, resolved: Stream, cachedAt: int)
      modifies this`entries
      ensures OldestGone(old(entries)[key := Stamped(resolved, cachedAt, SUCCESS_TTL_MS)], entries)
    {
      entries := TrimTable(entries[key := Stamped(resolved, cachedAt, SUCCESS_TTL_MS)]);
    }

    method InsertFailure(key: string, message: string, cachedAt: int)
      modifies this`failures
      ensures OldestGone(old(failures)[key := Stamped(message, cachedAt, FAILURE_TTL_MS)], failures)
    {
      failures := TrimTable(failures[key := Stamped(message, cachedAt, FAILURE_TTL_MS)]);
    }

    method LockFor(key: string) returns (mutex: nat)
      modifies this`locks, this`nextMutex
      ensures locks == WithLock(old(locks), old(nextMutex), key) && mutex == locks[key]
      ensures nextMutex == if key in old(locks) then old(nextMutex) else old(nextMutex) + 1
    {
      if key !in locks {
        locks := locks[key := nextMutex];
        nextMutex := nextMutex + 1;
      }
      mutex := locks[key];
    }

    method Prune(now: int, referenced: set<nat>)
      modifies this`entries, this`failures, this`locks
      ensures entries == FreshOnly(old(entries), now) && failures == FreshOnly(old(failures), now)
      ensures locks == map key | key in old(locks) && old(locks)[key] in referenced :: old(locks)[key]
    {
      entries := FreshOnly(entries, now);
      failures := FreshOnly(failures, now);
      locks := map key | key in locks && locks[key] in referenced :: locks[key];
    }
  }

  /** `entry(key).or_insert_with(...)` on the lock table. */
  function WithLock(locks: map<string, nat>, nextMutex: nat, key: string): (after: map<string, nat>)
    ensures key in after
  {
    if key in locks then locks else locks[key := nextMutex]
  }
}
