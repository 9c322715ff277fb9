/** Quota eviction of the torrent cache in src/local_torrent.rs: `prune_cache` deletes folders, first the
    stale ones and then the oldest, and `ensure_cache_has_room` admits a download on what is left. */
module QuotaEviction {
  import StableSort

  const U64_MAX := 0xffff_ffff_ffff_ffff
  const I64_MIN := -0x8000_0000_0000_0000
  const RETENTION_MS := 30 * 24 * 60 * 60 * 1000

  datatype Folder = Folder(size: nat, modifiedMs: int)

  /** The hash-named folders of the cache directory by name. */
  type Folders = map<string, Folder>

  /** A folder as the scan of the directory reports it. */
  datatype Entry = Entry(name: string, size: nat, modifiedMs: int)

  function Minus(a: nat, b: nat): nat { if a > b then a - b else 0 }

  function PlusU64(a: nat, b: nat): nat { if a + b <= U64_MAX then a + b else U64_MAX }

  // ---------------------------------------------------------------------------
  // Bytes on disk
  // ---------------------------------------------------------------------------

  ghost function Bytes(folders: Folders): nat {
    if folders == map[] then 0
    else
      var name :| name in folders;
      folders[name].size + Bytes(folders - {name})
  }

  lemma {:induction false} BytesWithout(folders: Folders, name: string)
    requires name in folders
    ensures Bytes(folders) == folders[name].size + Bytes(folders - {name})
    decreases |folders|
  {
    var first :| first in folders && Bytes(folders) == folders[first].size + Bytes(folders - {first});
    if first != name {
      BytesWithout(folders - {first}, name);
      BytesWithout(folders - {name}, first);
      assert folders - {first} - {name} == folders - {name} - {first};
    }
  }

  lemma BytesOfNone()
    ensures Bytes(map[]) == 0
  {
  }

  lemma WithoutBoth(part: Folders, whole: Folders, name: string)
    requires name in part && part.Keys <= whole.Keys
    ensures whole - {name} - (part - {name}).Keys == whole - part.Keys
  {
  }

  lemma {:induction false} BytesOfPart(part: Folders, whole: Folders)
    requires part.Keys <= whole.Keys && forall n | n in part :: part[n] == whole[n]
    ensures Bytes(whole) == Bytes(part) + Bytes(whole - part.Keys)
    decreases |part|
  {
    hide Bytes;
    if part == map[] {
      BytesOfNone();
      assert whole - part.Keys == whole;
    } else {
      var name :| name in part;
      BytesWithout(part, name);
      BytesWithout(whole, name);
      BytesOfPart(part - {name}, whole - {name});
      WithoutBoth(part, whole, name);
    }
  }

  // ---------------------------------------------------------------------------
  // The scan
  // ---------------------------------------------------------------------------

  /** The scan reports each folder once, in any order. */
  ghost predicate Lists(entries: seq<Entry>, folders: Folders) {
    && (forall i, j | 0 <= i < j < |entries| :: entries[i].name != entries[j].name)
    && (forall e | e in entries :: e.name in folders && folders[e.name] == Folder(e.size, e.modifiedMs))
    && (forall n | n in folders :: exists e :: e in entries && e.name == n)
  }

  function TotalSize(entries: seq<Entry>): nat {
    if entries == [] then 0 else entries[0].size + TotalSize(entries[1..])
  }

  lemma ListsRest(entries: seq<Entry>, folders: Folders)
    requires Lists(entries, folders) && entries != []
    ensures entries[0].name in folders && folders[entries[0].name].size == entries[0].size
    ensures Lists(entries[1..], folders - {entries[0].name})
  {
    var e, rest := entries[0], entries[1..];
    assert e in entries && forall x | x in rest :: x in entries;
    forall n | n in folders - {e.name} ensures exists x :: x in rest && x.name == n {
      var x :| x in entries && x.name == n;
      assert x in rest;
    }
    forall x | x in rest ensures x.name != e.name {
      var i :| 0 <= i < |rest| && rest[i] == x;
      assert entries[i + 1] == x;
    }
    forall i, j | 0 <= i < j < |rest| ensures rest[i].name != rest[j].name {
      assert entries[i + 1].name != entries[j + 1].name;
    }
  }

  lemma {:induction false} ScanCountsBytes(entries: seq<Entry>, folders: Folders)
    requires Lists(entries, folders)
    ensures TotalSize(entries) == Bytes(folders)
  {
    if entries == [] {
      assert folders.Keys == {} && folders == map[];
    } else {
      hide Bytes, Lists;
      ListsRest(entries, folders);
      ScanCountsBytes(entries[1..], folders - {entries[0].name});
      BytesWithout(folders, entries[0].name);
    }
  }

  // ---------------------------------------------------------------------------
  // What a prune leaves
  // ---------------------------------------------------------------------------

  /** What decides about a folder: who is active, from when on a folder is stale, and which removals
      the file system lets succeed. */
  datatype Rules = Rules(active: set<string>, cutoff: int, removable: set<string>)

  predicate Expired(r: Rules, name: string, modifiedMs: int) { modifiedMs <= r.cutoff && name !in r.active }

  predicate Evictable(r: Rules, name: string) { name !in r.active && name in r.removable }

  /** First the stale folders go, whatever the quota. */
  function WithoutExpired(r: Rules, folders: Folders): Folders {
    map n | n in folders && !(Expired(r, n, folders[n].modifiedMs) && n in r.removable) :: folders[n]
  }

  function Candidates(r: Rules, entries: seq<Entry>): seq<Entry> {
    if entries == [] then []
    else
      var last := entries[|entries| - 1];
      Candidates(r, entries[..|entries| - 1]) + if Expired(r, last.name, last.modifiedMs) then [] else [last]
  }

  predicate Older(a: Entry, b: Entry) { a.modifiedMs <= b.modifiedMs }

  /** Then folders go in the given order while more than `target` bytes are on disk. */
  ghost function Evicted(r: Rules, order: seq<Entry>, folders: Folders, target: nat): Folders {
    if order == [] || Bytes(folders) <= target then folders
    else Evicted(r, order[1..], if Evictable(r, order[0].name) then folders - {order[0].name} else folders, target)
  }

  function EvictionOrder(r: Rules, entries: seq<Entry>): seq<Entry> { StableSort.Sort(Candidates(r, entries), Older) }

  ghost function Pruned(r: Rules, entries: seq<Entry>, folders: Folders, target: nat): Folders {
    Evicted(r, EvictionOrder(r, entries), WithoutExpired(r, folders), target)
  }

  /** The first `k` folders of the order are gone, as far as they may go. */
  function Less(r: Rules, order: seq<Entry>, folders: Folders, k: nat): Folders
    requires k <= |order|
  {
    map n | n in folders && !(Evictable(r, n) && Named(order[..k], n)) :: folders[n]
  }

  predicate Named(entries: seq<Entry>, name: string) { exists e :: e in entries && e.name == name }

  // ---------------------------------------------------------------------------
  // The directory and its service
  // ---------------------------------------------------------------------------

  /** The part of the first phase that lies behind the scan position. */
  ghost predicate ExpiredGone(r: Rules, entries: seq<Entry>, i: nat, was: Folders, folders: Folders)
    requires i <= |entries|
  {
    folders == map n | n in was && !(Named(entries[..i], n) && Expired(r, n,
        was[n].modifiedMs) && n in r.removable) :: was[n]
  }

  lemma NamedSnoc(entries: seq<Entry>, i: nat, name: string)
    requires i < |entries|
    ensures Named(entries[..i + 1], name) <==> Named(entries[..i], name) || entries[i].name == name
  {
    assert entries[..i + 1] == entries[..i] + [entries[i]];
    assert entries[i] in entries[..i + 1];
    assert forall e | e in entries[..i] :: e in entries[..i + 1];
  }

  lemma FirstOfItsName(entries: seq<Entry>, i: nat, folders: Folders)
    requires i < |entries| && Lists(entries, folders)
    ensures !Named(entries[..i], entries[i].name)
    ensures entries[i].name in folders && folders[entries[i].name] == Folder(entries[i].size, entries[i].modifiedMs)
  {
    assert entries[i] in entries;
    forall e | e in entries[..i] ensures e.name != entries[i].name {
      var j :| 0 <= j < i && entries[j] == e;
    }
  }

  lemma ExpiredStep(r: Rules, entries: seq<Entry>, i: nat, was: Folders, folders: Folders)
    requires i < |entries| && Lists(entries, was) && ExpiredGone(r, entries, i, was, folders)
    ensures var e := entries[i];
      && e.name in folders && folders[e.name].size == e.size
      && ExpiredGone(r, entries, i + 1, was,
                     if Expired(r, e.name, e.modifiedMs) && e.name in r.removable then folders - {e.name} else folders)
  {
    FirstOfItsName(entries, i, was);
    forall n ensures Named(entries[..i + 1], n) <==> Named(entries[..i], n) || entries[i].name == n {
      NamedSnoc(entries, i, n);
    }
  }

  lemma NothingYet(r: Rules, entries: seq<Entry>, was: Folders)
    ensures ExpiredGone(r, entries, 0, was, was)
    ensures Candidates(r, entries[..0]) == []
  {
    assert entries[..0] == [];
  }

  lemma CandidatesStep(r: Rules, entries: seq<Entry>, i: nat)
    requires i < |entries|
    ensures var e := entries[i];
            Candidates(r, entries[..i + 1])
            == if Expired(r, e.name, e.modifiedMs) then Candidates(r, entries[..i])
                else Candidates(r, entries[..i]) + [e]
  {
    assert entries[..i + 1][..i] == entries[..i];
  }

  lemma AtTarget(r: Rules, order: seq<Entry>, folders: Folders, target: nat)
    ensures Bytes(folders) <= target ==> Evicted(r, order, folders, target) == folders
  {
    hide Bytes;
  }

  lemma AllExpiredGone(r: Rules, entries: seq<Entry>, was: Folders, folders: Folders)
    requires Lists(entries, was) && ExpiredGone(r, entries, |entries|, was, folders)
    ensures folders == WithoutExpired(r, was)
  {
    assert entries[..|entries|] == entries;
    forall n | n in was ensures Named(entries, n) {
    }
  }

  class CacheDir {
    /** The hash-named folders, and the bytes of everything else under the cache directory. */
    var folders: Folders
    var loose: nat

    ghost predicate FitsU64()
      reads this
    {
      Bytes(folders) + loose <= U64_MAX
    }

    /** The blocking part of `prune_cache`. */
    method PruneCache(r: Rules, entries: seq<Entry>, target: nat)
      requires Lists(entries, folders)
      modifies this`folders
      ensures folders == Pruned(r, entries, old(folders), target)
    {
      hide ExpiredGone, Lists, Bytes, Evicted, Candidates, StableSort.Sort;
      ghost var was := folders;
      ScanCountsBytes(entries, folders);
      var total := TotalSize(entries);
      var retained: seq<Entry> := [];
      NothingYet(r, entries, folders);
      for i := 0 to |entries|
        invariant ExpiredGone(r, entries, i, was, folders)
        invariant total == Bytes(folders) && retained == Candidates(r, entries[..i])
      {
        var e := entries[i];
        ExpiredStep(r, entries, i, was, folders);
        CandidatesStep(r, entries, i);
        BytesWithout(folders, e.name);
        if e.modifiedMs <= r.cutoff && e.name !in r.active {
          if e.name in r.removable {
            folders := folders - {e.name};
            total := Minus(total, e.size);
          }
          continue;
        }
        retained := retained + [e];
      }
      AllExpiredGone(r, entries, was, folders);
      assert entries[..|entries|] == entries;
      AtTarget(r, EvictionOrder(r, entries), folders, target);
      if total <= target {
        return;
      }
      retained := StableSort.Sort(retained, Older);
      OrderIsListed(r, entries, was);
      EvictOldest(r, retained, total, target);
    }

    /** The second loop of `prune_cache`. */
    method EvictOldest(r: Rules, retained: seq<Entry>, size: nat, target: nat)
      requires size == Bytes(folders) && Present(retained, folders)
      modifies this`folders
      ensures folders == Evicted(r, retained, old(folders), target)
    {
      var total := size;
      for i := 0 to |retained|
        invariant total == Bytes(folders) && Present(retained[i..], folders)
        invariant Evicted(r, retained[i..], folders, target) == Evicted(r, retained, old(folders), target)
      {
        hide Bytes;
        var e, rest := retained[i], retained[i + 1..];
        assert retained[i..] == [e] + rest;
        if total <= target {
          break;
        }
        PresentStep(e, rest, folders);
        if e.name in r.active {
          continue;
        }
        if e.name in r.removable {
          BytesWithout(folders, e.name);
          folders := folders - {e.name};
          total := Minus(total, e.size);
        }
      }
    }

    /** `ensure_cache_has_room`, once the directory exists. The quota is the configured one, at least 1. */
    method EnsureCacheHasRoom(handles: set<string>, keep: string, required: nat, quota: nat, now: int,
                              entries: seq<Entry>, removable: set<string>) returns (ok: bool)
      requires Lists(entries, folders) && FitsU64()
      modifies this`folders
      ensures ok == (required <= MaxBytes(quota)
                     && PlusU64(Minus(loose + Bytes(folders), SizeOf(folders, keep)), required) <= MaxBytes(quota))
      ensures ok == Admits(MakeRules(handles, keep, now, removable), keep, required, if quota > 1 then quota else 1,
                           entries, old(folders), loose)
      ensures forall n | n in old(folders) && (n in handles || n == keep) :: n in folders
      ensures forall n | n in folders :: n in old(folders) && folders[n] == old(folders)[n]
      ensures folders == if required > MaxBytes(quota) then old(folders)
                         else Pruned(MakeRules(handles, keep, now, removable), entries, old(folders),
                                     Target(MaxBytes(quota), required, SizeOf(old(folders), keep)))
    {
      var maxBytes := MaxBytes(quota);
      if required > maxBytes {
        return false;
      }
      hide Pruned;
      var existingKeepBytes := SizeOf(folders, keep);
      PruneSpares(MakeRules(handles, keep, now, removable), entries, folders,
                  Target(maxBytes, required, existingKeepBytes));
      PruneCache(MakeRules(handles, keep, now, removable), entries, Target(maxBytes, required, existingKeepBytes));
      var usedBytes := DiskUsage();
      existingKeepBytes := SizeOf(folders, keep);
      if PlusU64(Minus(usedBytes, existingKeepBytes), required) > maxBytes {
        return false;
      }
      return true;
    }

    /** `dir_size` of the whole cache directory. */
    method DiskUsage() returns (bytes: nat)
      ensures bytes == loose + Bytes(folders)
    {
      bytes := loose;
      var left := folders;
      while left != map[]
        invariant bytes + Bytes(left) == loose + Bytes(folders)
        decreases |left|
      {
        var name :| name in left;
        BytesWithout(left, name);
        bytes, left := bytes + left[name].size, left - {name};
      }
    }
  }

  function MaxBytes(quota: nat): nat { if quota > 1 then quota else 1 }

  function SizeOf(folders: Folders, name: string): nat { if name in folders then folders[name].size else 0 }

  function Target(maxBytes: nat, required: nat, existingKeepBytes: nat): nat {
    Minus(maxBytes, Minus(required, existingKeepBytes))
  }

  function Cutoff(now: int): int { if now - RETENTION_MS < I64_MIN then I64_MIN else now - RETENTION_MS }

  function MakeRules(handles: set<string>, keep: string, now: int, removable: set<string>): Rules {
    Rules(handles + {keep}, Cutoff(now), removable)
  }

  /** A folder is stale after thirty days without a change, unless its torrent is open or the one that asks;
      and only idle folders may ever go. */
  lemma RulesSay(handles: set<string>, keep: string, now: int, removable: set<string>, name: string, modifiedMs: int)
    requires -0x8000_0000_0000_0000 <= now && -0x8000_0000_0000_0000 < modifiedMs
    ensures var r := MakeRules(handles, keep, now, removable);
      && (Expired(r, name, modifiedMs) <==> name !in handles && name != keep && modifiedMs + 2_592_000_000 <= now)
      && (Evictable(r, name) <==> name !in handles && name != keep && name in removable)
  {
  }

  // ---------------------------------------------------------------------------
  // Orders of folders that are on disk
  // ---------------------------------------------------------------------------

  /** Distinct folders that are on disk with these sizes. */
  ghost predicate Present(order: seq<Entry>, folders: Folders) {
    && (forall i, j | 0 <= i < j < |order| :: order[i].name != order[j].name)
    && forall e | e in order :: e.name in folders && folders[e.name] == Folder(e.size, e.modifiedMs)
  }

  lemma PresentStep(e: Entry, rest: seq<Entry>, folders: Folders)
    requires Present([e] + rest, folders)
    ensures e.name in folders && folders[e.name].size == e.size
    ensures Present(rest, folders) && Present(rest, folders - {e.name})
    ensures !Named(rest, e.name)
  {
    var order := [e] + rest;
    assert order[0] == e && order[1..] == rest && e in order;
    forall i, j | 0 <= i < j < |rest| ensures rest[i].name != rest[j].name {
      assert order[i + 1].name != order[j + 1].name;
    }
    forall x | x in rest ensures x in order && x.name != e.name {
      var i :| 0 <= i < |rest| && rest[i] == x;
      assert order[i + 1] == x;
    }
  }

  lemma {:induction false} CandidatesFacts(r: Rules, entries: seq<Entry>)
    ensures forall e :: e in Candidates(r, entries) <==> e in entries && !Expired(r, e.name, e.modifiedMs)
    ensures forall e :: multiset(Candidates(r, entries))[e] <= multiset(entries)[e]
  {
    if entries != [] {
      var front, last := entries[..|entries| - 1], entries[|entries| - 1];
      assert entries == front + [last];
      CandidatesFacts(r, front);
    }
  }

  /** No name twice: as multisets, so that sorting does not matter. */
  ghost predicate DistinctNames(entries: seq<Entry>) {
    && (forall e, f | e in entries && f in entries && e.name == f.name :: e == f)
    && forall e :: multiset(entries)[e] <= 1
  }

  lemma {:induction false} OnceOnly(entries: seq<Entry>, e: Entry)
    requires forall i, j | 0 <= i < j < |entries| :: entries[i].name != entries[j].name
    ensures multiset(entries)[e] <= 1
  {
    if entries != [] {
      var front, last := entries[..|entries| - 1], entries[|entries| - 1];
      assert entries == front + [last];
      OnceOnly(front, e);
      forall x | x in front ensures x.name != last.name {
        var i :| 0 <= i < |front| && front[i] == x;
        assert entries[i].name != entries[|front|].name;
      }
    }
  }

  lemma DistinctByIndex(order: seq<Entry>)
    requires DistinctNames(order)
    ensures forall i, j | 0 <= i < j < |order| :: order[i].name != order[j].name
  {
    forall i, j | 0 <= i < j < |order| ensures order[i].name != order[j].name {
      if order[i].name == order[j].name {
        assert order[i] in order && order[j] in order && order[i] == order[j];
        TwiceCounts(order, i, j);
      }
    }
  }

  lemma TwiceCounts(order: seq<Entry>, i: nat, j: nat)
    requires i < j < |order| && order[i] == order[j]
    ensures multiset(order)[order[i]] >= 2
  {
    assert order == order[..j] + [order[j]] + order[j + 1..];
    assert order[i] in order[..j];
  }

  lemma OrderIsListed(r: Rules, entries: seq<Entry>, folders: Folders)
    requires Lists(entries, folders)
    ensures Present(EvictionOrder(r, entries), WithoutExpired(r, folders))
    ensures forall e :: e in EvictionOrder(r, entries) <==> e in entries && !Expired(r, e.name, e.modifiedMs)
  {
    hide StableSort.Sort, Candidates, Expired, Evictable;
    var order := EvictionOrder(r, entries);
    CandidatesFacts(r, entries);
    StableSort.SortKeepsElements(Candidates(r, entries), Older);
    forall e ensures e in order <==> e in entries && !Expired(r, e.name, e.modifiedMs) {
      assert e in order <==> e in multiset(order);
      assert e in Candidates(r, entries) <==> e in multiset(Candidates(r, entries));
    }
    forall e ensures multiset(order)[e] <= 1 { OnceOnly(entries, e); }
    forall e, f | e in order && f in order && e.name == f.name ensures e == f {
      var i :| 0 <= i < |entries| && entries[i] == e;
      var j :| 0 <= j < |entries| && entries[j] == f;
    }
    DistinctByIndex(order);
  }

  // ---------------------------------------------------------------------------
  // What eviction takes and what it spares
  // ---------------------------------------------------------------------------

  lemma LessNothing(r: Rules, order: seq<Entry>, folders: Folders)
    ensures Less(r, order, folders, 0) == folders
  {
    assert order[..0] == [];
  }

  lemma LessStep(r: Rules, e: Entry, rest: seq<Entry>, folders: Folders, k: nat)
    requires k <= |rest|
    ensures Less(r, [e] + rest, folders, k + 1)
         == Less(r, rest, if Evictable(r, e.name) then folders - {e.name} else folders, k)
  {
    var order := [e] + rest;
    assert order[..k + 1] == [e] + rest[..k];
    forall n ensures Named(order[..k + 1], n) <==> e.name == n || Named(rest[..k], n) {
      assert e in order[..k + 1] && forall x | x in rest[..k] :: x in order[..k + 1];
    }
  }

  /** Eviction takes a prefix of the order, as far as it may; every folder it takes or passes was
      reached with more than `target` bytes on disk, and it stops as soon as that is not so. */
  lemma {:induction false} TakesPrefix(r: Rules, order: seq<Entry>, folders: Folders, target: nat) returns (k: nat)
    ensures k <= |order| && Evicted(r, order, folders, target) == Less(r, order, folders, k)
    ensures forall i | 0 <= i < k :: Bytes(Less(r, order, folders, i)) > target
    ensures k == |order| || Bytes(Evicted(r, order, folders, target)) <= target
    decreases |order|
  {
    hide Bytes, Evictable, Less;
    k := 0;
    LessNothing(r, order, folders);
    if order != [] && Bytes(folders) > target {
      var e, rest := order[0], order[1..];
      assert order == [e] + rest;
      var next := if Evictable(r, e.name) then folders - {e.name} else folders;
      var n := TakesPrefix(r, rest, next, target);
      k := n + 1;
      forall i | 0 <= i < k ensures Bytes(Less(r, order, folders, i)) > target {
        if i > 0 { LessStep(r, e, rest, folders, i - 1); }
      }
      LessStep(r, e, rest, folders, n);
    }
  }

  lemma OlderIsTotal()
    ensures StableSort.TotalPreorder(Older)
  {
  }

  /** The folders of active torrents. */
  function ActiveFolders(r: Rules, folders: Folders): Folders {
    map n | n in folders && n in r.active :: folders[n]
  }

  lemma EvictedIsPart(r: Rules, order: seq<Entry>, folders: Folders, target: nat)
    ensures forall n | n in Evicted(r, order, folders, target) ::
              n in folders && Evicted(r, order, folders, target)[n] == folders[n]
    ensures forall n | n in folders && !Evictable(r, n) :: n in Evicted(r, order, folders, target)
  {
    hide Evicted;
    var k := TakesPrefix(r, order, folders, target);
  }

  /** A prune removes nothing active and nothing it is not let, changes no folder, and removes every
      stale folder it may. */
  lemma PruneSpares(r: Rules, entries: seq<Entry>, folders: Folders, target: nat)
    ensures forall n | n in Pruned(r, entries, folders, target) ::
              n in folders && Pruned(r, entries, folders, target)[n] == folders[n]
    ensures forall n | n in folders && !Evictable(r, n) :: n in Pruned(r, entries, folders, target)
    ensures forall n | n in Pruned(r, entries, folders, target) && n in r.removable ::
              !Expired(r, n, folders[n].modifiedMs)
  {
    hide Evicted;
    EvictedIsPart(r, EvictionOrder(r, entries), WithoutExpired(r, folders), target);
  }

  /** Among folders that are not stale the oldest go first: whatever could have gone and stayed is no
      older than anything that went. */
  lemma OldestFirst(r: Rules, entries: seq<Entry>, folders: Folders, target: nat, gone: string, stayed: string)
    requires Lists(entries, folders)
    requires gone in folders && gone !in Pruned(r, entries, folders, target)
            && !Expired(r, gone, folders[gone].modifiedMs)
    requires stayed in Pruned(r, entries, folders, target) && Evictable(r, stayed)
    ensures stayed in folders && folders[gone].modifiedMs <= folders[stayed].modifiedMs
  {
    hide Evicted, Bytes, StableSort.Sort, StableSort.TotalPreorder, Candidates;
    var order, start := EvictionOrder(r, entries), WithoutExpired(r, folders);
    OrderIsListed(r, entries, folders);
    OlderIsTotal();
    StableSort.SortIsSorted(Candidates(r, entries), Older);
    PruneSpares(r, entries, folders, target);
    var k := TakesPrefix(r, order, start, target);
    var e :| e in order[..k] && e.name == gone;
    var i :| 0 <= i < k && order[i] == e;
    var f :| f in entries && f.name == stayed;
    assert f in order;
    var j :| 0 <= j < |order| && order[j] == f;
    assert !Named(order[..k], stayed);
    forall h | 0 <= h < k ensures order[h].name != stayed {
      assert order[..k][h] == order[h] && order[h] in order[..k];
    }
    assert Older(order[i], order[j]);
    assert e in entries;
  }

  /** Nothing fresh is removed without need: at the moment a folder that is not stale goes it is still
      there, and more than `target` bytes are on disk. */
  lemma NoneWithoutNeed(r: Rules, entries: seq<Entry>, folders: Folders, target: nat, gone: string) returns (i: nat)
    requires gone in WithoutExpired(r, folders) && gone !in Pruned(r, entries, folders, target)
    ensures i < |EvictionOrder(r, entries)| && EvictionOrder(r, entries)[i].name == gone && Evictable(r, gone)
    ensures Bytes(Less(r, EvictionOrder(r, entries), WithoutExpired(r, folders), i)) > target
  {
    hide Evicted, Bytes, StableSort.Sort, Candidates;
    var order := EvictionOrder(r, entries);
    var k := TakesPrefix(r, order, WithoutExpired(r, folders), target);
    var e :| e in order[..k] && e.name == gone;
    i :| 0 <= i < k && order[i] == e;
  }

  lemma NotNamedBefore(order: seq<Entry>, i: nat)
    requires i < |order| && forall h, j | 0 <= h < j < |order| :: order[h].name != order[j].name
    ensures !Named(order[..i], order[i].name)
  {
    forall e | e in order[..i] ensures e.name != order[i].name {
      var h :| 0 <= h < i && order[..i][h] == e;
      assert order[h].name != order[i].name;
    }
  }

  /** Told by what the service is asked: a folder that is not stale goes only at a moment when, with the folders
      still on disk, what the download adds to its own folder would not fit the quota. */
  lemma EvictsForRoomOnly(handles: set<string>, keep: string, required: nat, quota: nat, now: int,
                          removable: set<string>, entries: seq<Entry>, folders: Folders, gone: string)
      returns (left: Folders)
    requires Lists(entries, folders) && required <= quota
    requires gone in folders && folders[gone].modifiedMs + 2_592_000_000 > now >= -0x8000_0000_0000_0000 + 2_592_000_000
    requires gone !in Pruned(MakeRules(handles, keep, now, removable), entries, folders,
                             Target(quota, required, SizeOf(folders, keep)))
    ensures gone in left && forall n | n in left :: n in folders && left[n] == folders[n]
    ensures forall n | n in folders && (n in handles || n == keep) :: n in left
    ensures Bytes(left) + required > quota + (if keep in folders then folders[keep].size else 0)
            || Bytes(left) > quota
  {
    hide Bytes, Pruned, Lists, EvictionOrder;
    var r := MakeRules(handles, keep, now, removable);
    var order, start := EvictionOrder(r, entries), WithoutExpired(r, folders);
    var i := NoneWithoutNeed(r, entries, folders, Target(quota, required, SizeOf(folders, keep)), gone);
    left := Less(r, order, start, i);
    OrderIsListed(r, entries, folders);
    NotNamedBefore(order, i);
  }

  // ---------------------------------------------------------------------------
  // Admission
  // ---------------------------------------------------------------------------

  lemma EverythingInOrderGoes(r: Rules, entries: seq<Entry>, folders: Folders)
    requires Lists(entries, folders) && folders.Keys <= r.removable
    ensures var order := EvictionOrder(r, entries);
            Less(r, order, WithoutExpired(r, folders), |order|) == ActiveFolders(r, folders)
  {
    hide StableSort.Sort, Candidates;
    var order := EvictionOrder(r, entries);
    OrderIsListed(r, entries, folders);
    assert order[..|order|] == order;
    forall n | n in WithoutExpired(r, folders) ensures n in r.active || Named(order, n) {
      var e :| e in entries && e.name == n;
      if n !in r.active { assert e in order; }
    }
  }

  /** After a prune whose removals succeed, either the target is met or only active folders are left. */
  lemma PruneReachesTarget(r: Rules, entries: seq<Entry>, folders: Folders, target: nat)
    requires Lists(entries, folders) && folders.Keys <= r.removable
    ensures Bytes(Pruned(r, entries, folders, target)) <= target
         || Pruned(r, entries, folders, target) == ActiveFolders(r, folders)
  {
    hide Evicted, Bytes, EvictionOrder, Less, Lists, ActiveFolders;
    var k := TakesPrefix(r, EvictionOrder(r, entries), WithoutExpired(r, folders), target);
    EverythingInOrderGoes(r, entries, folders);
  }

  /** Bytes of the active torrents other than the one that asks. */
  ghost function OtherActive(r: Rules, folders: Folders, keep: string): nat {
    Bytes(ActiveFolders(r, folders) - {keep})
  }

  lemma ActiveBytes(r: Rules, folders: Folders, keep: string)
    requires keep in r.active
    ensures Bytes(ActiveFolders(r, folders)) == OtherActive(r, folders, keep) + SizeOf(folders, keep)
  {
    if keep in folders {
      BytesWithout(ActiveFolders(r, folders), keep);
    } else {
      assert ActiveFolders(r, folders) - {keep} == ActiveFolders(r, folders);
    }
  }

  lemma ActiveSurvive(r: Rules, entries: seq<Entry>, folders: Folders, target: nat, keep: string)
    requires keep in r.active
    ensures SizeOf(Pruned(r, entries, folders, target), keep) == SizeOf(folders, keep)
    ensures OtherActive(r, folders, keep) + SizeOf(folders, keep) <= Bytes(Pruned(r, entries, folders, target))
  {
    hide Bytes, Pruned;
    var after := Pruned(r, entries, folders, target);
    PruneSpares(r, entries, folders, target);
    ActiveBytes(r, folders, keep);
    BytesOfPart(ActiveFolders(r, folders), after);
  }

  /** The answer of `ensure_cache_has_room`, as its method states it. */
  ghost predicate Admits(r: Rules, keep: string, required: nat, maxBytes: nat, entries: seq<Entry>, folders: Folders,
      loose: nat) {
    var after := Pruned(r, entries, folders, Target(maxBytes, required, SizeOf(folders, keep)));
    required <= maxBytes && PlusU64(Minus(loose + Bytes(after), SizeOf(after, keep)), required) <= maxBytes
  }

  /** Whatever else is on disk and whichever removals fail: room is only granted when the other active
      torrents, the loose bytes and the download fit together. */
  lemma AdmittedFits(r: Rules, keep: string, required: nat, maxBytes: nat, entries: seq<Entry>, folders: Folders,
      loose: nat)
    requires keep in r.active && Admits(r, keep, required, maxBytes, entries, folders, loose)
    ensures loose + OtherActive(r, folders, keep) + required <= maxBytes || maxBytes >= 0xffff_ffff_ffff_ffff
  {
    hide Bytes, Pruned, OtherActive;
    ActiveSurvive(r, entries, folders, Target(maxBytes, required, SizeOf(folders, keep)), keep);
  }

  /** With nothing but hash-named folders on disk and removals that succeed, that is exact: the download
      is admitted if and only if it fits the quota beside the other active torrents. */
  lemma AdmitsExactly(r: Rules, keep: string, required: nat, maxBytes: nat, entries: seq<Entry>, folders: Folders)
    requires Lists(entries, folders) && folders.Keys <= r.removable && keep in r.active
    ensures Admits(r, keep, required, maxBytes, entries, folders, 0)
       <==> required <= maxBytes
            && (OtherActive(r, folders, keep) + required <= maxBytes || maxBytes >= 0xffff_ffff_ffff_ffff)
  {
    hide Bytes, Pruned, OtherActive, Lists;
    var target := Target(maxBytes, required, SizeOf(folders, keep));
    PruneReachesTarget(r, entries, folders, target);
    ActiveSurvive(r, entries, folders, target, keep);
    ActiveBytes(r, folders, keep);
  }

  /** Told by what the service is asked: if all removals succeed and nothing lies loose, a download gets its room
      exactly if it fits the quota together with the folders of the other open torrents. */
  lemma RoomExactly(handles: set<string>, keep: string, required: nat, quota: nat, now: int, entries: seq<Entry>,
                    folders: Folders)
    requires Lists(entries, folders) && 1 <= quota < 0xffff_ffff_ffff_ffff
    ensures Admits(MakeRules(handles, keep, now, folders.Keys), keep, required, quota, entries, folders, 0)
       <==> Bytes(map n | n in folders && n in handles && n != keep :: folders[n]) + required <= quota
  {
    hide Bytes, Admits, Lists;
    var r := MakeRules(handles, keep, now, folders.Keys);
    AdmitsExactly(r, keep, required, quota, entries, folders);
    OthersAre(r, folders, keep, handles);
  }

  lemma OthersAre(r: Rules, folders: Folders, keep: string, handles: set<string>)
    requires r.active == handles + {keep}
    ensures ActiveFolders(r, folders) - {keep} == map n | n in folders && n in handles && n != keep :: folders[n]
  {
  }

  /** The request fits the quota beside the other active torrents and the loose bytes. */
  ghost predicate Fits(r: Rules, keep: string, required: nat, maxBytes: nat, folders: Folders, loose: nat) {
    && required <= maxBytes
    && (loose + OtherActive(r, folders, keep) + required <= maxBytes || maxBytes >= 0xffff_ffff_ffff_ffff)
  }

  /** After `k` places of the order eviction first meets its target, which does not count loose bytes: it
      stops with evictable folders left, although with the loose bytes the request does not fit yet. */
  ghost predicate StopsTooEarly(r: Rules, order: seq<Entry>, folders: Folders, keep: string, required: nat,
      maxBytes: nat,
                                loose: nat, k: nat)
    requires k <= |order|
  {
    var start, own := WithoutExpired(r, folders), SizeOf(folders, keep);
    && (forall i | 0 <= i < k :: Bytes(Less(r, order, start, i)) > Target(maxBytes, required, own))
    && Bytes(Less(r, order, start, k)) <= Target(maxBytes, required, own)
    && (exists n :: n in Less(r, order, start, k) && Evictable(r, n))
    && PlusU64(Minus(loose + Bytes(Less(r, order, start, k)), own), required) > maxBytes
  }

  lemma OnlyActiveLeftAdmits(r: Rules, keep: string, required: nat, maxBytes: nat, entries: seq<Entry>,
      folders: Folders,
                             loose: nat)
    requires keep in r.active && Fits(r, keep, required, maxBytes, folders, loose)
    requires Pruned(r, entries, folders, Target(maxBytes, required, SizeOf(folders, keep))) == ActiveFolders(r, folders)
    ensures Admits(r, keep, required, maxBytes, entries, folders, loose)
  {
    hide Bytes, Pruned, OtherActive;
    ActiveSurvive(r, entries, folders, Target(maxBytes, required, SizeOf(folders, keep)), keep);
    ActiveBytes(r, folders, keep);
  }

  lemma OnlyActive(r: Rules, folders: Folders, after: Folders)
    requires forall n | n in after :: n in folders && after[n] == folders[n]
    requires forall n | n in folders && n in r.active :: n in after
    ensures (forall n | n in after :: n in r.active) ==> after == ActiveFolders(r, folders)
  {
  }

  lemma SomethingEvictableLeft(r: Rules, entries: seq<Entry>, folders: Folders, target: nat)
    requires folders.Keys <= r.removable && Pruned(r, entries, folders, target) != ActiveFolders(r, folders)
    ensures exists n :: n in Pruned(r, entries, folders, target) && Evictable(r, n)
  {
    hide Pruned;
    var after, active := Pruned(r, entries, folders, target), ActiveFolders(r, folders);
    PruneSpares(r, entries, folders, target);
    OnlyActive(r, folders, after);
    var n :| n in after && n !in r.active;
    assert Evictable(r, n);
  }

  /** The exact cost of loose bytes: when removals succeed, a request that fits is refused if and only if
      eviction stops too early. */
  lemma FittingIsRefusedExactly(r: Rules, keep: string, required: nat, maxBytes: nat, entries: seq<Entry>,
                                folders: Folders, loose: nat)
    requires Lists(entries, folders) && folders.Keys <= r.removable && keep in r.active
    requires Fits(r, keep, required, maxBytes, folders, loose)
    ensures !Admits(r, keep, required, maxBytes, entries, folders, loose)
       <==> exists k :: 0 <= k <= |EvictionOrder(r, entries)|
                        && StopsTooEarly(r, EvictionOrder(r, entries), folders, keep, required, maxBytes, loose, k)
  {
    hide Bytes, Evicted, Less, Evictable, EvictionOrder, Lists, OtherActive, WithoutExpired, ActiveFolders;
    var order, start, own := EvictionOrder(r, entries), WithoutExpired(r, folders), SizeOf(folders, keep);
    var target := Target(maxBytes, required, own);
    var stop := TakesPrefix(r, order, start, target);
    ActiveSurvive(r, entries, folders, target, keep);
    if !Admits(r, keep, required, maxBytes, entries, folders, loose) {
      if Pruned(r, entries, folders, target) == ActiveFolders(r, folders) {
        OnlyActiveLeftAdmits(r, keep, required, maxBytes, entries, folders, loose);
      }
      EverythingInOrderGoes(r, entries, folders);
      SomethingEvictableLeft(r, entries, folders, target);
      assert StopsTooEarly(r, order, folders, keep, required, maxBytes, loose, stop);
    }
    if k :| 0 <= k <= |order| && StopsTooEarly(r, order, folders, keep, required, maxBytes, loose, k) {
      assert k == stop;
    }
  }

  /** Loose bytes spoil it, however few: the prune does not see them and stops too early. Here a fresh
      folder of an idle torrent stays although removing it would have made room. */
  lemma LooseBytesRefuse(loose: nat, required: nat, keep: string, idle: string, cutoff: int)
    requires 0 < loose && 2 * loose + required <= U64_MAX && keep != idle
    ensures var r, folders, entries := Rules({keep}, cutoff, {idle}), map[idle := Folder(loose, cutoff + 1)],
            [Entry(idle, loose, cutoff + 1)];
      && Lists(entries, folders) && folders.Keys <= r.removable
      && PlusU64(loose + OtherActive(r, folders, keep), required) <= required + loose
      && !Admits(r, keep, required, required + loose, entries, folders, loose)
  {
    var r, folders, entries := Rules({keep}, cutoff, {idle}), map[idle := Folder(loose, cutoff + 1)],
        [Entry(idle, loose, cutoff + 1)];
    assert entries[0] in entries;
    BytesWithout(folders, idle);
    assert folders - {idle} == map[];
    assert WithoutExpired(r, folders) == folders;
    assert ActiveFolders(r, folders) - {keep} == map[];
    assert Pruned(r, entries, folders, loose) == folders;
  }
}
