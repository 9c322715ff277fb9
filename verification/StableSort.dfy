/** `slice::sort_by_key`: a stable sort, here by insertion. */
module StableSort {

  /** `x` goes in front of everything it is not above. */
  function Insert<T>(x: T, s: seq<T>, le: (T, T) -> bool): seq<T> {
    if s == [] || le(x, s[0]) then [x] + s else [s[0]] + Insert(x, s[1..], le)
  }

  function Sort<T>(s: seq<T>, le: (T, T) -> bool): seq<T> {
    if s == [] then [] else Insert(s[0], Sort(s[1..], le), le)
  }

  ghost predicate TotalPreorder<T(!new)>(le: (T, T) -> bool) {
    && (forall x, y :: le(x, y) || le(y, x))
    && (forall x, y, z :: le(x, y) && le(y, z) ==> le(x, z))
  }

  ghost predicate Sorted<T>(s: seq<T>, le: (T, T) -> bool) {
    forall i, j | 0 <= i < j < |s| :: le(s[i], s[j])
  }

  lemma {:induction false} InsertKeepsElements<T>(x: T, s: seq<T>, le: (T, T) -> bool)
    ensures multiset(Insert(x, s, le)) == multiset([x] + s)
    ensures |Insert(x, s, le)| == |s| + 1
  {
    if s != [] && !le(x, s[0]) {
      InsertKeepsElements(x, s[1..], le);
      assert s == [s[0]] + s[1..];
    }
  }

  lemma {:induction false} SortKeepsElements<T>(s: seq<T>, le: (T, T) -> bool)
    ensures multiset(Sort(s, le)) == multiset(s) && |Sort(s, le)| == |s|
  {
    if s != [] {
      SortKeepsElements(s[1..], le);
      InsertKeepsElements(s[0], Sort(s[1..], le), le);
      assert s == [s[0]] + s[1..];
    }
  }

  lemma {:induction false} InsertKeepsSorted<T(!new)>(x: T, s: seq<T>, le: (T, T) -> bool)
    requires TotalPreorder(le) && Sorted(s, le)
    ensures Sorted(Insert(x, s, le), le)
  {
    if s != [] && !le(x, s[0]) {
      InsertKeepsSorted(x, s[1..], le);
      InsertKeepsElements(x, s[1..], le);
      var rest := Insert(x, s[1..], le);
      forall j | 0 <= j < |rest| ensures le(s[0], rest[j]) {
        assert rest[j] in multiset(rest);
        assert rest[j] == x || rest[j] in s[1..];
      }
    }
  }

  lemma {:induction false} SortIsSorted<T(!new)>(s: seq<T>, le: (T, T) -> bool)
    requires TotalPreorder(le)
    ensures Sorted(Sort(s, le), le)
  {
    if s != [] {
      SortIsSorted(s[1..], le);
      InsertKeepsSorted(s[0], Sort(s[1..], le), le);
    }
  }

  /** Being stable, the sort leaves a sorted sequence alone. */
  lemma {:induction false} SortedIsFixed<T>(s: seq<T>, le: (T, T) -> bool)
    requires Sorted(s, le)
    ensures Sort(s, le) == s
  {
    if s != [] { SortedIsFixed(s[1..], le); }
  }

  /** Neither is above the other. */
  predicate Tied<T>(x: T, y: T, le: (T, T) -> bool) { le(x, y) && le(y, x) }

  /** What is tied with `x`, in order. */
  function Ties<T>(s: seq<T>, x: T, le: (T, T) -> bool): seq<T> {
    if s == [] then [] else (if Tied(s[0], x, le) then [s[0]] else []) + Ties(s[1..], x, le)
  }

  lemma AboveIsNotTied<T(!new)>(x: T, above: T, y: T, le: (T, T) -> bool)
    requires TotalPreorder(le) && !le(x, above)
    ensures !(Tied(x, y, le) && Tied(above, y, le))
  {
  }

  lemma TiesCons<T>(first: T, rest: seq<T>, y: T, le: (T, T) -> bool)
    ensures Ties([first] + rest, y, le) == (if Tied(first, y, le) then [first] else []) + Ties(rest, y, le)
  {
    hide Tied;
    assert ([first] + rest)[1..] == rest;
  }

  lemma InsertedAbove<T>(x: T, s: seq<T>, le: (T, T) -> bool)
    ensures if s == [] || le(x, s[0]) then Insert(x, s, le) == [x] + s
            else Insert(x, s, le) == [s[0]] + Insert(x, s[1..], le)
  {
  }

  lemma {:induction false} InsertKeepsTies<T(!new)>(x: T, s: seq<T>, y: T, le: (T, T) -> bool)
    requires TotalPreorder(le)
    ensures Ties(Insert(x, s, le), y, le) == (if Tied(x, y, le) then [x] else []) + Ties(s, y, le)
  {
    hide TotalPreorder, Tied, Ties, Insert;
    InsertedAbove(x, s, le);
    if s == [] || le(x, s[0]) {
      TiesCons(x, s, y, le);
    } else {
      assert s == [s[0]] + s[1..];
      InsertKeepsTies(x, s[1..], y, le);
      TiesCons(s[0], Insert(x, s[1..], le), y, le);
      TiesCons(s[0], s[1..], y, le);
      AboveIsNotTied(x, s[0], y, le);
    }
  }

  /** Elements that are tied keep their order. */
  lemma {:induction false} SortKeepsTies<T(!new)>(s: seq<T>, y: T, le: (T, T) -> bool)
    requires TotalPreorder(le)
    ensures Ties(Sort(s, le), y, le) == Ties(s, y, le)
  {
    if s != [] {
      SortKeepsTies(s[1..], y, le);
      InsertKeepsTies(s[0], Sort(s[1..], le), y, le);
    }
  }
}
