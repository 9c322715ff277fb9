/** The response cache key of src/tmdb.rs and the query that is actually sent. A `BTreeMap` is a list
    of pairs in strictly increasing key order. */
module TmdbKey {
  import opened Text
  import FormUrl

  type Params = seq<(string, string)>

  // ---------------------------------------------------------------------------
  // Ordered maps
  // ---------------------------------------------------------------------------

  predicate Below(a: string, b: string) { LexLe(a, b) && a != b }

  ghost predicate Ordered(ps: Params) {
    forall i, j | 0 <= i < j < |ps| :: Below(ps[i].0, ps[j].0)
  }

  function Content(ps: Params): map<string, string> {
    if ps == [] then map[] else Content(ps[1..])[ps[0].0 := ps[0].1]
  }

  /** `BTreeMap::insert` */
  function Put(ps: Params, key: string, value: string): Params {
    if ps == [] then [(key, value)]
    else if ps[0].0 == key then [(key, value)] + ps[1..]
    else if Below(key, ps[0].0) then [(key, value)] + ps
    else [ps[0]] + Put(ps[1..], key, value)
  }

  lemma {:induction false} LexTotal(a: string, b: string)
    ensures LexLe(a, b) || LexLe(b, a)
    ensures LexLe(a, b) && LexLe(b, a) ==> a == b
  {
    if a != "" && b != "" && a[0] == b[0] {
      LexTotal(a[1..], b[1..]);
      assert a == [a[0]] + a[1..] && b == [b[0]] + b[1..];
    }
  }

  lemma {:induction false} LexTransitive(a: string, b: string, c: string)
    requires LexLe(a, b) && LexLe(b, c)
    ensures LexLe(a, c)
  {
    if a != "" && b != "" && c != "" && a[0] == b[0] == c[0] {
      LexTransitive(a[1..], b[1..], c[1..]);
    }
  }

  lemma BelowTransitive(a: string, b: string, c: string)
    requires Below(a, b) && Below(b, c)
    ensures Below(a, c)
  {
    LexTransitive(a, b, c);
    LexTotal(a, b);
  }

  lemma {:induction false} ContentKeys(ps: Params, key: string)
    ensures key in Content(ps) <==> exists i :: 0 <= i < |ps| && ps[i].0 == key
  {
    if ps != [] {
      ContentKeys(ps[1..], key);
      if key in Content(ps[1..]) {
        var i :| 0 <= i < |ps[1..]| && ps[1..][i].0 == key;
        assert ps[i + 1].0 == key;
      }
      if i :| 0 <= i < |ps| && ps[i].0 == key {
        if i > 0 { assert ps[1..][i - 1].0 == key; }
      }
    }
  }

  lemma FirstStaysFirst(ps: Params, key: string, after: Params)
    requires Ordered(ps) && ps != [] && Below(ps[0].0, key) && Ordered(after)
    requires forall k :: k in Content(after) <==> k == key || k in Content(ps[1..])
    ensures Ordered([ps[0]] + after)
  {
    var rest := ps[1..];
    forall j | 0 <= j < |after| ensures Below(ps[0].0, after[j].0) {
      ContentKeys(after, after[j].0);
      ContentKeys(rest, after[j].0);
      if after[j].0 != key {
        var i :| 0 <= i < |rest| && rest[i].0 == after[j].0;
        assert Below(ps[0].0, ps[i + 1].0);
      }
    }
  }

  lemma PutFirst(ps: Params, key: string)
    requires Ordered(ps) && ps != [] && Below(key, ps[0].0)
    ensures forall j | 0 <= j < |ps| :: Below(key, ps[j].0)
  {
    forall j | 0 <= j < |ps| ensures Below(key, ps[j].0) {
      if j > 0 { BelowTransitive(key, ps[0].0, ps[j].0); }
    }
  }

  lemma {:induction false} PutInserts(ps: Params, key: string, value: string)
    requires Ordered(ps)
    ensures Ordered(Put(ps, key, value)) && Content(Put(ps, key, value)) == Content(ps)[key := value]
  {
    if ps == [] {
      assert [(key, value)][1..] == [];
    } else {
      var rest := ps[1..];
      assert Ordered(rest);
      if ps[0].0 == key {
        assert ([(key, value)] + rest)[1..] == rest;
      } else if Below(key, ps[0].0) {
        assert ([(key, value)] + ps)[1..] == ps;
        PutFirst(ps, key);
      } else {
        LexTotal(key, ps[0].0);
        PutInserts(rest, key, value);
        var after := Put(rest, key, value);
        assert ([ps[0]] + after)[1..] == after;
        FirstStaysFirst(ps, key, after);
      }
    }
  }

  lemma {:induction false} SameContentSameList(a: Params, b: Params)
    requires Ordered(a) && Ordered(b) && Content(a) == Content(b)
    ensures a == b
  {
    HasFirstKey(a);
    HasFirstKey(b);
    if a != [] {
      FirstIsLeast(a, b[0].0);
      FirstIsLeast(b, a[0].0);
      LexTotal(a[0].0, b[0].0);
      FirstNotInRest(a);
      FirstNotInRest(b);
      assert Content(a) - {a[0].0} == Content(a[1..]);
      assert Content(b) - {b[0].0} == Content(b[1..]);
      SameContentSameList(a[1..], b[1..]);
      assert a == [a[0]] + a[1..] && b == [b[0]] + b[1..];
    }
  }

  lemma HasFirstKey(ps: Params)
    ensures ps != [] ==> ps[0].0 in Content(ps)
  {
  }

  lemma FirstIsLeast(ps: Params, key: string)
    requires Ordered(ps) && ps != []
    ensures ps[0].0 in Content(ps)
    ensures key in Content(ps) ==> LexLe(ps[0].0, key)
  {
    ContentKeys(ps, key);
    LexTotal(key, key);
  }

  lemma FirstNotInRest(ps: Params)
    requires Ordered(ps) && ps != []
    ensures Ordered(ps[1..]) && ps[0].0 !in Content(ps[1..])
  {
    ContentKeys(ps[1..], ps[0].0);
  }

  // ---------------------------------------------------------------------------
  // Key and query
  // ---------------------------------------------------------------------------

  const LANGUAGE := "language"
  const DEFAULT_LANGUAGE := "en-US"

  predicate Blank(value: string) { Trim(value) == "" }

  function NonBlank(m: map<string, string>): map<string, string> {
    map key | key in m && !Blank(m[key]) :: m[key]
  }

  /** The parameters the key speaks of: the non-blank ones, with a default language. */
  function Meaning(m: map<string, string>): map<string, string> {
    map[LANGUAGE := DEFAULT_LANGUAGE] + NonBlank(m)
  }

  function KeyOf(path: string, normalized: Params): string {
    Trim(path) + "?" + FormUrl.Serialize(normalized)
  }

  /** The pairs of a key, as the loop of the source collects them. */
  function Collected(params: Params): Params {
    if params == [] then [(LANGUAGE, DEFAULT_LANGUAGE)]
    else
      var before := Collected(params[..|params| - 1]);
      var (key, value) := params[|params| - 1];
      if Blank(value) then before else Put(before, key, value)
  }

  method BuildTmdbResponseCacheKey(path: string, params: Params) returns (key: string)
    requires Ordered(params)
    ensures key == KeyOf(path, Collected(params))
  {
    var normalized := [(LANGUAGE, DEFAULT_LANGUAGE)];
    for i := 0 to |params|
      invariant normalized == Collected(params[..i])
    {
      assert params[..i + 1][..i] == params[..i];
      if !Blank(params[i].1) {
        normalized := Put(normalized, params[i].0, params[i].1);
      }
    }
    assert params[..|params|] == params;
    key := KeyOf(path, normalized);
  }

  lemma {:induction false} ContentAppended(ps: Params, key: string, value: string)
    requires Ordered(ps + [(key, value)])
    ensures Content(ps + [(key, value)]) == Content(ps)[key := value]
  {
    if ps == [] {
      assert ([] + [(key, value)])[1..] == [];
    } else {
      assert (ps + [(key, value)])[1..] == ps[1..] + [(key, value)];
      var all := ps + [(key, value)];
      assert Below(all[0].0, all[|ps|].0);
      forall i, j | 0 <= i < j < |all[1..]| ensures Below(all[1..][i].0, all[1..][j].0) {
        assert Below(all[i + 1].0, all[j + 1].0);
      }
      ContentAppended(ps[1..], key, value);
    }
  }

  lemma {:induction false} CollectedMeaning(params: Params)
    requires Ordered(params)
    ensures Ordered(Collected(params)) && Content(Collected(params)) == Meaning(Content(params))
  {
    if params == [] {
      assert [(LANGUAGE, DEFAULT_LANGUAGE)][1..] == [];
    } else {
      var n := |params| - 1;
      var front, key, value := params[..n], params[n].0, params[n].1;
      assert params == front + [(key, value)];
      CollectedMeaning(front);
      ContentAppended(front, key, value);
      ContentKeys(front, key);
      assert forall i | 0 <= i < |front| :: Below(params[i].0, params[n].0);
      if !Blank(value) {
        PutInserts(Collected(front), key, value);
      }
      MeaningExtended(Content(front), key, value);
    }
  }

  lemma MeaningExtended(m: map<string, string>, key: string, value: string)
    requires key !in m
    ensures Meaning(m[key := value]) == if Blank(value) then Meaning(m) else Meaning(m)[key := value]
  {
    assert NonBlank(m[key := value]) == if Blank(value) then NonBlank(m) else NonBlank(m)[key := value];
  }

  lemma SplitAtLastMark(a: string, q: string, b: string, r: string)
    requires a + "?" + q == b + "?" + r && '?' !in q && '?' !in r
    ensures a == b && q == r
  {
    var s := a + "?" + q;
    assert s[|a|] == '?' && s[|b|] == '?';
    assert forall i | |a| < i < |s| :: s[i] == q[i - |a| - 1];
    assert forall i | |b| < i < |s| :: s[i] == (b + "?" + r)[i] == r[i - |b| - 1];
    assert |a| == |b|;
    assert s[..|a|] == a && s[..|b|] == b && s[|a| + 1..] == q && s[|b| + 1..] == r;
  }

  lemma KeyDeterminesParts(path1: string, c1: Params, path2: string, c2: Params)
    requires KeyOf(path1, c1) == KeyOf(path2, c2)
    ensures Trim(path1) == Trim(path2) && c1 == c2
  {
    FormUrl.SerializedCharacters(c1);
    FormUrl.SerializedCharacters(c2);
    SplitAtLastMark(Trim(path1), FormUrl.Serialize(c1), Trim(path2), FormUrl.Serialize(c2));
    FormUrl.PairsRoundTrip(c1);
    FormUrl.PairsRoundTrip(c2);
  }

  /** Two requests share a cache key exactly when their trimmed paths agree and they mean the same
      parameters, whatever characters paths and parameters contain. */
  lemma SameKeyExactly(path1: string, params1: Params, path2: string, params2: Params)
    requires Ordered(params1) && Ordered(params2)
    ensures KeyOf(path1, Collected(params1)) == KeyOf(path2, Collected(params2))
       <==> Trim(path1) == Trim(path2) && Meaning(Content(params1)) == Meaning(Content(params2))
  {
    CollectedMeaning(params1);
    CollectedMeaning(params2);
    if Meaning(Content(params1)) == Meaning(Content(params2)) {
      SameContentSameList(Collected(params1), Collected(params2));
    }
    if KeyOf(path1, Collected(params1)) == KeyOf(path2, Collected(params2)) {
      KeyDeterminesParts(path1, Collected(params1), path2, Collected(params2));
    }
  }

  /** What `fetch` sends: the parameters as given, with the language overwritten. */
  function SentQuery(params: Params): Params { Put(params, LANGUAGE, DEFAULT_LANGUAGE) }

  /** What goes out is what came in, every parameter of it, but for the language, which is always en-US. */
  lemma SentIsGiven(params: Params)
    requires Ordered(params)
    ensures Content(SentQuery(params)) == Content(params)["language" := "en-US"]
    ensures Ordered(SentQuery(params))
  {
    PutInserts(params, "language", "en-US");
  }

  /** What the key says: blank parameters are dropped, the others stand with their values, and the language is
      en-US where none is given. */
  lemma KeySays(params: Params, key: string)
    requires Ordered(params)
    ensures var given, said := Content(params), Content(Collected(params));
      && (key in given && Trim(given[key]) != "" ==> key in said && said[key] == given[key])
      && (key in said && !(key in given && Trim(given[key]) != "") ==> key == "language" && said[key] == "en-US")
      && "language" in said
  {
    CollectedMeaning(params);
  }

  /** Two requests send the same non-blank parameters exactly when their keys agree on everything
      but the language. */
  lemma SameQueryExactly(params1: Params, params2: Params)
    requires Ordered(params1) && Ordered(params2)
    ensures NonBlank(Content(SentQuery(params1))) == NonBlank(Content(SentQuery(params2)))
       <==> Meaning(Content(params1)) - {LANGUAGE} == Meaning(Content(params2)) - {LANGUAGE}
  {
    PutInserts(params1, LANGUAGE, DEFAULT_LANGUAGE);
    PutInserts(params2, LANGUAGE, DEFAULT_LANGUAGE);
    SentMeaning(Content(params1));
    SentMeaning(Content(params2));
  }

  lemma SentMeaning(m: map<string, string>)
    ensures var sent := NonBlank(m[LANGUAGE := DEFAULT_LANGUAGE]);
            LANGUAGE in sent && sent[LANGUAGE] == DEFAULT_LANGUAGE && sent - {LANGUAGE} == Meaning(m) - {LANGUAGE}
            && sent == (Meaning(m) - {LANGUAGE})[LANGUAGE := DEFAULT_LANGUAGE]
  {
    hide Trim;
    assert !Blank(DEFAULT_LANGUAGE) by { TrimmedIsFixed(DEFAULT_LANGUAGE); }
  }

  /** Requests with equal keys may share a response: they send the same query up to blank values. */
  lemma SameKeySameQuery(path1: string, params1: Params, path2: string, params2: Params)
    requires Ordered(params1) && Ordered(params2)
    requires KeyOf(path1, Collected(params1)) == KeyOf(path2, Collected(params2))
    ensures NonBlank(Content(SentQuery(params1))) == NonBlank(Content(SentQuery(params2)))
  {
    SameKeyExactly(path1, params1, path2, params2);
    SameQueryExactly(params1, params2);
  }

  /** The converse fails on the language alone: a request for another language and one for the default
      get different keys although the query that goes out is the same. */
  lemma LanguageSplitsEqualQueries(path: string, language: string)
    requires !Blank(language) && language != DEFAULT_LANGUAGE
    ensures SentQuery([(LANGUAGE, language)]) == SentQuery([])
    ensures KeyOf(path, Collected([(LANGUAGE, language)])) != KeyOf(path, Collected([]))
  {
    var foreign := [(LANGUAGE, language)];
    assert foreign[1..] == [];
    assert Content(foreign) == map[LANGUAGE := language];
    assert Meaning(Content(foreign))[LANGUAGE] == language;
    assert Meaning(Content([]))[LANGUAGE] == DEFAULT_LANGUAGE;
    SameKeyExactly(path, foreign, path, []);
  }
}
