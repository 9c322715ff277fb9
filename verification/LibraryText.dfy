/** Text clean-up of src/library.rs: `normalize_whitespace` and `slugify`. Unicode lower-casing is a
    parameter. */
module LibraryText {
  import opened Text

  // ---------------------------------------------------------------------------
  // Whitespace
  // ---------------------------------------------------------------------------

  function FirstBlank(s: string): (n: nat)
    ensures n <= |s| && (n < |s| ==> IsWhitespace(s[n])) && forall i | 0 <= i < n :: !IsWhitespace(s[i])
  {
    if s == "" || IsWhitespace(s[0]) then 0 else 1 + FirstBlank(s[1..])
  }

  function SkipBlanks(s: string): (t: string)
    ensures |t| <= |s| && (t == "" || !IsWhitespace(t[0]))
  {
    if s != "" && IsWhitespace(s[0]) then SkipBlanks(s[1..]) else s
  }

  /** `split_whitespace` */
  function Words(s: string): seq<string>
    decreases |s|
  {
    var t := SkipBlanks(s);
    if t == "" then [] else [t[..FirstBlank(t)]] + Words(t[FirstBlank(t)..])
  }

  /** `normalize_whitespace` */
  function NormalizeWhitespace(s: string): string { Trim(Join(Words(s), " ")) }

  predicate IsWord(s: string) { s != "" && forall c | c in s :: !IsWhitespace(c) }

  predicate AreWords(words: seq<string>) { forall w | w in words :: IsWord(w) }

  lemma {:induction false} WordsAreWords(s: string)
    ensures AreWords(Words(s))
    decreases |s|
  {
    var t := SkipBlanks(s);
    if t != "" {
      WordsAreWords(t[FirstBlank(t)..]);
      assert IsWord(t[..FirstBlank(t)]);
    }
  }

  lemma FirstBlankOf(word: string, rest: string)
    requires IsWord(word) && (rest == "" || IsWhitespace(rest[0]))
    ensures SkipBlanks(word + rest) == word + rest && FirstBlank(word + rest) == |word|
  {
    var s := word + rest;
    assert s[0] == word[0] && word[0] in word;
    assert forall i | 0 <= i < |word| :: s[i] == word[i] && word[i] in word;
    assert rest != "" ==> s[|word|] == rest[0];
  }

  lemma WordFirst(word: string, rest: string)
    requires IsWord(word) && (rest == "" || IsWhitespace(rest[0]))
    ensures Words(word + rest) == [word] + Words(rest)
  {
    FirstBlankOf(word, rest);
    assert (word + rest)[..|word|] == word && (word + rest)[|word|..] == rest;
  }

  lemma BlankFirst(rest: string)
    ensures Words(" " + rest) == Words(rest)
  {
    assert (" " + rest)[1..] == rest;
  }

  /** Words, joined by single blanks, are split again. */
  lemma {:induction false} JoinedWordsSplit(words: seq<string>)
    requires AreWords(words)
    ensures Words(Join(words, " ")) == words
  {
    if words != [] {
      assert words[0] in words && words == [words[0]] + words[1..];
      if |words| == 1 {
        WordFirst(words[0], "");
        assert words[0] + "" == words[0];
      } else {
        JoinedWordsSplit(words[1..]);
        WordFirst(words[0], " " + Join(words[1..], " "));
        BlankFirst(Join(words[1..], " "));
        assert words[0] + " " + Join(words[1..], " ") == words[0] + (" " + Join(words[1..], " "));
      }
    }
  }

  lemma {:induction false} JoinedWordsAreTrimmed(words: seq<string>)
    requires AreWords(words)
    ensures Trimmed(Join(words, " ")) && (Join(words, " ") == "" <==> words == [])
  {
    if words != [] {
      var w := words[0];
      assert w in words && w[0] in w && w[|w| - 1] in w;
      if |words| > 1 {
        JoinedWordsAreTrimmed(words[1..]);
        var rest := Join(words[1..], " ");
        assert words[1] in words;
        assert (w + " " + rest)[|w + " " + rest| - 1] == rest[|rest| - 1];
      }
    }
  }

  lemma NormalizedIsJoined(words: seq<string>)
    requires AreWords(words)
    ensures NormalizeWhitespace(Join(words, " ")) == Join(words, " ")
  {
    JoinedWordsSplit(words);
    JoinedWordsAreTrimmed(words);
    TrimmedIsFixed(Join(words, " "));
  }

  /** Text that `normalize_whitespace` leaves alone. */
  predicate Tidy(s: string) { NormalizeWhitespace(s) == s }

  /** Normalising whitespace twice is doing it once. */
  lemma NormalizedIsTidy(s: string)
    ensures Tidy(NormalizeWhitespace(s))
  {
    WordsAreWords(s);
    JoinedWordsAreTrimmed(Words(s));
    TrimmedIsFixed(Join(Words(s), " "));
    NormalizedIsJoined(Words(s));
  }

  /** Words with gaps around them. */
  function Woven(words: seq<string>, gaps: seq<string>): string
    requires |gaps| == |words| + 1
  {
    if words == [] then gaps[0] else gaps[0] + (words[0] + Woven(words[1..], gaps[1..]))
  }

  /** Gaps of characters that cannot stand in words; between two words there is at least one. */
  ghost predicate AreGaps(gaps: seq<string>, outside: char -> bool) {
    && (forall i, c | 0 <= i < |gaps| && c in gaps[i] :: outside(c))
    && forall i | 0 < i < |gaps| - 1 :: gaps[i] != ""
  }

  lemma {:induction false} GapFirst(gap: string, rest: string)
    requires forall c | c in gap :: IsWhitespace(c)
    ensures Words(gap + rest) == Words(rest)
  {
    if gap == "" {
      assert gap + rest == rest;
    } else {
      assert (gap + rest)[0] == gap[0] && gap[0] in gap && (gap + rest)[1..] == gap[1..] + rest;
      GapFirst(gap[1..], rest);
    }
  }

  lemma {:induction false} WovenWords(words: seq<string>, gaps: seq<string>)
    requires |gaps| == |words| + 1 && AreWords(words) && AreGaps(gaps, IsWhitespace)
    ensures Words(Woven(words, gaps)) == words
  {
    if words == [] {
      GapFirst(gaps[0], "");
      assert gaps[0] + "" == gaps[0];
    } else {
      var rest := Woven(words[1..], gaps[1..]);
      WovenWords(words[1..], gaps[1..]);
      assert words[0] in words && gaps[1] == gaps[1..][0];
      if rest != "" {
        assert gaps[1] != "" ==> rest[0] == gaps[1][0] && gaps[1][0] in gaps[1];
      }
      WordFirst(words[0], rest);
      GapFirst(gaps[0], words[0] + rest);
    }
  }

  /** However much space stands around words and between them, they come out with single blanks in between. */
  lemma NormalizedWords(words: seq<string>, gaps: seq<string>)
    requires |gaps| == |words| + 1 && AreWords(words) && AreGaps(gaps, IsWhitespace)
    ensures NormalizeWhitespace(Woven(words, gaps)) == Join(words, " ")
  {
    WovenWords(words, gaps);
    JoinedWordsAreTrimmed(words);
    TrimmedIsFixed(Join(words, " "));
  }

  lemma WordIsTidy(word: string)
    requires IsWord(word)
    ensures Tidy(word)
  {
    NormalizedIsJoined([word]);
  }

  lemma TwoWordsAreTidy(first: string, second: string)
    requires IsWord(first) && IsWord(second)
    ensures Tidy(first + " " + second)
  {
    assert Join([first, second], " ") == first + " " + second by { assert [first, second][1..] == [second]; }
    NormalizedIsJoined([first, second]);
  }

  // ---------------------------------------------------------------------------
  // Slugs
  // ---------------------------------------------------------------------------

  predicate IsAlphanumeric(c: char) { IsAsciiDigit(c) || 'a' <= c <= 'z' || 'A' <= c <= 'Z' }

  predicate IsUpper(c: char) { 'A' <= c <= 'Z' }

  predicate IsAscii(s: string) { forall c | c in s :: c as int < 0x80 }

  /** What is used of `to_lowercase`: no ASCII capital is left, and ASCII text changes in its capitals only. */
  ghost predicate LowerOk(lower: string -> string) {
    forall s :: (forall c | c in lower(s) :: !IsUpper(c)) && (IsAscii(s) ==> lower(s) == ToLower(s))
  }

  /** Letters and digits, every run of anything else turned into one dash. */
  function Dashed(s: string): string {
    if s == "" then ""
    else
      var before, c := Dashed(s[..|s| - 1]), s[|s| - 1];
      if IsAlphanumeric(c) then before + [c]
      else if before != "" && before[|before| - 1] == '-' then before
      else before + ['-']
  }

  function TrimDashesStart(s: string): string {
    if s != "" && s[0] == '-' then TrimDashesStart(s[1..]) else s
  }

  function TrimDashesEnd(s: string): string {
    if s != "" && s[|s| - 1] == '-' then TrimDashesEnd(s[..|s| - 1]) else s
  }

  /** `trim_matches('-')` */
  function TrimDashes(s: string): string { TrimDashesStart(TrimDashesEnd(s)) }

  function Slug(lower: string -> string, value: string, fallback: string): string {
    var trimmed := TrimDashes(Dashed(lower(NormalizeWhitespace(value))));
    if trimmed == "" then fallback else trimmed
  }

  method Slugify(lower: string -> string, value: string, fallback: string) returns (slug: string)
    ensures slug == Slug(lower, value, fallback)
  {
    var output, lastDash := "", false;
    var text := lower(NormalizeWhitespace(value));
    for i := 0 to |text|
      invariant output == Dashed(text[..i])
      invariant lastDash <==> output != "" && output[|output| - 1] == '-'
    {
      assert text[..i + 1][..i] == text[..i];
      if IsAlphanumeric(text[i]) {
        output := output + [text[i]];
        lastDash := false;
      } else if !lastDash {
        output := output + ['-'];
        lastDash := true;
      }
    }
    assert text[..|text|] == text;
    var trimmed := TrimDashes(output);
    slug := if trimmed == "" then fallback else trimmed;
  }

  predicate SlugChar(c: char) { IsAsciiDigit(c) || 'a' <= c <= 'z' || c == '-' }

  predicate NoDoubleDash(s: string) { forall i | 0 <= i < |s| - 1 :: !(s[i] == '-' && s[i + 1] == '-') }

  /** Lower-case words joined by single dashes. */
  predicate IsSlug(s: string) {
    && s != "" && s[0] != '-' && s[|s| - 1] != '-'
    && (forall c | c in s :: SlugChar(c)) && NoDoubleDash(s)
  }

  lemma {:induction false} DashedShape(s: string)
    requires forall c | c in s :: !IsUpper(c)
    ensures (forall c | c in Dashed(s) :: SlugChar(c)) && NoDoubleDash(Dashed(s))
  {
    if s != "" {
      DashedShape(s[..|s| - 1]);
      assert s[|s| - 1] in s;
    }
  }

  lemma DashedSnoc(front: string, c: char)
    ensures Dashed(front + [c])
         == var before := Dashed(front);
            if IsAlphanumeric(c) then before + [c]
            else if before != "" && before[|before| - 1] == '-' then before else before + ['-']
  {
    assert (front + [c])[..|front|] == front;
  }

  lemma SlugPrefix(front: string, c: char)
    requires (forall x | x in front + [c] :: SlugChar(x)) && NoDoubleDash(front + [c])
    ensures (forall x | x in front :: SlugChar(x)) && NoDoubleDash(front)
    ensures SlugChar(c) && (c == '-' && front != "" ==> front[|front| - 1] != '-')
  {
    var s := front + [c];
    assert s[|front|] == c && forall i | 0 <= i < |front| :: s[i] == front[i];
    assert c in s && forall x | x in front :: x in s;
    if front != "" { assert s[|front| - 1] == front[|front| - 1]; }
  }

  lemma {:induction false} DashedSlug(s: string)
    requires (forall c | c in s :: SlugChar(c)) && NoDoubleDash(s)
    ensures Dashed(s) == s
  {
    if s != "" {
      hide Dashed, NoDoubleDash;
      var front, c := s[..|s| - 1], s[|s| - 1];
      assert s == front + [c];
      SlugPrefix(front, c);
      DashedSlug(front);
      DashedSnoc(front, c);
    }
  }

  lemma {:induction false} TrimDashesPart(s: string)
    ensures |TrimDashesStart(s)| <= |s| && TrimDashesStart(s) == s[|s| - |TrimDashesStart(s)|..]
    ensures TrimDashesStart(s) != "" ==> TrimDashesStart(s)[0] != '-'
  {
    if s != "" && s[0] == '-' { TrimDashesPart(s[1..]); }
  }

  lemma {:induction false} TrimDashesEndPart(s: string)
    ensures TrimDashesEnd(s) <= s
    ensures TrimDashesEnd(s) != "" ==> TrimDashesEnd(s)[|TrimDashesEnd(s)| - 1] != '-'
  {
    if s != "" && s[|s| - 1] == '-' { TrimDashesEndPart(s[..|s| - 1]); }
  }

  lemma NoCapitals(lower: string -> string, s: string)
    requires LowerOk(lower)
    ensures forall c | c in lower(s) :: !IsUpper(c)
  {
  }

  /** Whatever comes in, what comes out is a slug if the fallback is one. */
  lemma SlugIsSlug(lower: string -> string, value: string, fallback: string)
    requires LowerOk(lower) && IsSlug(fallback)
    ensures IsSlug(Slug(lower, value, fallback))
  {
    hide NormalizeWhitespace, ToLower, LowerOk, Dashed, TrimDashesStart, TrimDashesEnd;
    var text := lower(NormalizeWhitespace(value));
    NoCapitals(lower, NormalizeWhitespace(value));
    var s := Dashed(text);
    DashedShape(text);
    var e := TrimDashesEnd(s);
    TrimDashesEndPart(s);
    TrimDashesPart(e);
    var t := TrimDashesStart(e);
    var k := |e| - |t|;
    assert forall i | 0 <= i < |t| :: t[i] == s[k + i];
    assert forall c | c in t :: c in s;
    if t != "" { assert t[|t| - 1] == e[|e| - 1]; }
  }

  /** And a slug stays as it is. */
  lemma SlugStays(lower: string -> string, slug: string, fallback: string)
    requires LowerOk(lower) && IsSlug(slug)
    ensures Slug(lower, slug, fallback) == slug && Tidy(slug)
  {
    assert forall c | c in slug :: SlugChar(c) && !IsWhitespace(c) && c as int < 0x80 && !IsUpper(c);
    assert forall i | 0 <= i < |slug| :: slug[i] in slug;
    assert ToLower(slug) == slug;
    WordIsTidy(slug);
    DashedSlug(slug);
    assert TrimDashesEnd(slug) == slug && TrimDashesStart(slug) == slug;
  }

  // ---------------------------------------------------------------------------
  // The slug of words
  // ---------------------------------------------------------------------------

  predicate IsRun(s: string) { s != "" && forall c | c in s :: IsAlphanumeric(c) }

  predicate AreRuns(runs: seq<string>) { forall run | run in runs :: IsRun(run) }

  predicate IsGap(s: string) { forall c | c in s :: !IsAlphanumeric(c) }

  predicate EndsInRun(s: string) { s != "" && IsAlphanumeric(s[|s| - 1]) }

  /** The longest runs of letters and digits. */
  function Runs(s: string): (runs: seq<string>)
    ensures EndsInRun(s) ==> runs != []
  {
    if s == "" then []
    else
      var front, c := s[..|s| - 1], s[|s| - 1];
      Extended(Runs(front), EndsInRun(front), c)
  }

  /** One character more, after a run or not. */
  function Extended(runs: seq<string>, inRun: bool, c: char): seq<string>
    requires inRun ==> runs != []
  {
    if !IsAlphanumeric(c) then runs
    else if inRun then runs[..|runs| - 1] + [runs[|runs| - 1] + [c]]
    else runs + [[c]]
  }

  lemma ExtendedBehind(a: seq<string>, b: seq<string>, inRun: bool, c: char)
    requires inRun ==> b != []
    ensures Extended(a + b, inRun, c) == a + Extended(b, inRun, c)
  {
    if inRun {
      var n := |b| - 1;
      assert (a + b)[..|a + b| - 1] == a + b[..n] && (a + b)[|a + b| - 1] == b[n];
    }
  }

  predicate NotAlphanumeric(c: char) { !IsAlphanumeric(c) }

  lemma {:induction false} JoinSnoc(parts: seq<string>, last: string, separator: string)
    ensures Join(parts + [last], separator)
         == if parts == [] then last else Join(parts, separator) + separator + last
  {
    if parts != [] {
      assert (parts + [last])[0] == parts[0] && (parts + [last])[1..] == parts[1..] + [last];
      JoinSnoc(parts[1..], last, separator);
    }
  }

  lemma JoinGrows(parts: seq<string>, c: char, separator: string)
    requires parts != []
    ensures var n := |parts| - 1;
            Join(parts[..n] + [parts[n] + [c]], separator) == Join(parts, separator) + [c]
  {
    hide Join;
    var n := |parts| - 1;
    assert parts == parts[..n] + [parts[n]];
    JoinSnoc(parts[..n], parts[n], separator);
    JoinSnoc(parts[..n], parts[n] + [c], separator);
  }

  function DashBefore(s: string): string {
    if s != "" && !IsAlphanumeric(s[0]) then "-" else ""
  }

  function DashAfter(s: string): string {
    if Runs(s) != [] && s != "" && !IsAlphanumeric(s[|s| - 1]) then "-" else ""
  }

  lemma ExtendedRuns(runs: seq<string>, inRun: bool, c: char)
    requires AreRuns(runs) && (inRun ==> runs != [])
    ensures AreRuns(Extended(runs, inRun, c)) && (Extended(runs, inRun, c) == [] <==> runs == [] && !IsAlphanumeric(c))
  {
    if inRun { assert IsRun(runs[|runs| - 1]); }
  }

  lemma GapSnoc(front: string, c: char)
    ensures IsGap(front + [c]) <==> IsGap(front) && !IsAlphanumeric(c)
  {
    assert (front + [c])[|front|] == c && forall x | x in front :: x in front + [c];
  }

  lemma {:induction false} RunsAreRuns(s: string)
    ensures AreRuns(Runs(s)) && (Runs(s) == [] <==> IsGap(s))
  {
    if s != "" {
      hide Runs, Extended, IsGap, AreRuns;
      var front, c := s[..|s| - 1], s[|s| - 1];
      assert s == front + [c];
      RunsAreRuns(front);
      RunsSnoc(front, c);
      ExtendedRuns(Runs(front), EndsInRun(front), c);
      GapSnoc(front, c);
    }
  }

  lemma {:induction false} DashedIs(s: string)
    ensures Dashed(s) == DashBefore(s) + Join(Runs(s), "-") + DashAfter(s)
  {
    if s != "" {
      hide Join;
      var front, c := s[..|s| - 1], s[|s| - 1];
      DashedIs(front);
      RunsAreRuns(front);
      DashedStep(front, c);
      assert s == front + [c];
    } else {
      assert Join([], "-") == "";
    }
  }

  lemma RunsSnoc(front: string, c: char)
    ensures Runs(front + [c]) == Extended(Runs(front), EndsInRun(front), c)
  {
    assert (front + [c])[..|front|] == front;
  }

  lemma {:induction false} JoinedRunsEnd(parts: seq<string>)
    requires AreRuns(parts)
    ensures Join(parts, "-") == "" <==> parts == []
    ensures parts != [] ==> var j := Join(parts, "-"); IsAlphanumeric(j[0]) && IsAlphanumeric(j[|j| - 1])
  {
    if parts != [] {
      assert parts[0] in parts && parts[0][0] in parts[0] && parts[0][|parts[0]| - 1] in parts[0];
      if |parts| > 1 {
        JoinedRunsEnd(parts[1..]);
        var j, rest := Join(parts, "-"), Join(parts[1..], "-");
        assert j[|j| - 1] == rest[|rest| - 1];
      }
    }
  }

  lemma DashedEnds(s: string)
    ensures Dashed(s) != "" && Dashed(s)[|Dashed(s)| - 1] == '-' <==> s != "" && !EndsInRun(s)
  {
    if s != "" {
      var c := s[|s| - 1];
      assert s == s[..|s| - 1] + [c];
      DashedSnoc(s[..|s| - 1], c);
    }
  }

  lemma DashedStep(front: string, c: char)
    requires Dashed(front) == DashBefore(front) + Join(Runs(front), "-") + DashAfter(front)
    ensures Dashed(front + [c])
         == DashBefore(front + [c]) + Join(Runs(front + [c]), "-") + DashAfter(front + [c])
  {
    hide Join, Dashed, Runs, IsAlphanumeric;
    var s, before := front + [c], Runs(front);
    DashedSnoc(front, c);
    DashedEnds(front);
    RunsSnoc(front, c);
    RunsAreRuns(front);
    JoinedRunsEnd(before);
    assert s[|front|] == c && (front != "" ==> s[0] == front[0] && front[0] in front);
    if IsAlphanumeric(c) {
      if EndsInRun(front) {
        JoinGrows(before, c, "-");
      } else {
        JoinSnoc(before, [c], "-");
      }
    }
  }

  /** A slug is made of the runs of letters and digits, with single dashes in between. */
  lemma SlugIsRuns(lower: string -> string, value: string, fallback: string)
    ensures var runs := Runs(lower(NormalizeWhitespace(value)));
            Slug(lower, value, fallback) == if runs == [] then fallback else Join(runs, "-")
  {
    hide Runs, Dashed, TrimDashesStart, TrimDashesEnd, Join, NormalizeWhitespace;
    var s := lower(NormalizeWhitespace(value));
    DashedIs(s);
    RunsAreRuns(s);
    JoinedRunsEnd(Runs(s));
    TrimmedDashes(DashBefore(s), Join(Runs(s), "-"), DashAfter(s));
    if Runs(s) == [] { assert DashAfter(s) == ""; }
  }

  lemma TrimmedDashes(before: string, s: string, after: string)
    requires before in ["", "-"] && after in ["", "-"] && (s == "" ==> after == "")
    requires s != "" ==> s[0] != '-' && s[|s| - 1] != '-'
    ensures TrimDashes(before + s + after) == s
  {
    var all, front := before + s + after, before + s;
    if after == "-" { assert all[..|all| - 1] == front; } else { assert all == front; }
    if s == "" {
      assert front == before && (before == "-" ==> before[..0] == "");
    } else {
      assert front[|front| - 1] == s[|s| - 1];
      assert TrimDashesEnd(front) == front && TrimDashesEnd(all) == front && TrimDashesStart(s) == s;
      if before == "-" { assert front[1..] == s; } else { assert front == s; }
    }
  }

  lemma {:induction false} RunsApart(a: string, gap: char, b: string)
    requires !IsAlphanumeric(gap)
    ensures Runs(a + [gap] + b) == Runs(a) + Runs(b)
  {
    hide Runs, Extended, EndsInRun;
    if b == "" {
      assert a + [gap] + b == a + [gap];
      RunsSnoc(a, gap);
      GapEnds(a, gap);
      NoRuns("");
    } else {
      var front, c := b[..|b| - 1], b[|b| - 1];
      assert b == front + [c] && a + [gap] + b == (a + [gap] + front) + [c];
      RunsApart(a, gap, front);
      RunsSnoc(a + [gap] + front, c);
      RunsSnoc(front, c);
      GapEndsNoRun(a, gap, front);
      ExtendedBehind(Runs(a), Runs(front), EndsInRun(front), c);
    }
  }

  lemma GapEnds(a: string, gap: char)
    requires !IsAlphanumeric(gap)
    ensures Extended(Runs(a), EndsInRun(a), gap) == Runs(a)
  {
  }

  lemma GapEndsNoRun(a: string, gap: char, b: string)
    requires !IsAlphanumeric(gap)
    ensures EndsInRun(a + [gap] + b) == EndsInRun(b)
  {
    var s := a + [gap] + b;
    assert s[|s| - 1] == if b == "" then gap else b[|b| - 1];
  }

  lemma NoRuns(gap: string)
    requires IsGap(gap)
    ensures Runs(gap) == []
  {
    RunsAreRuns(gap);
  }

  lemma {:induction false} GapBeforeRuns(gap: string, rest: string)
    requires IsGap(gap)
    ensures Runs(gap + rest) == Runs(rest)
  {
    hide Runs;
    if gap == "" {
      assert gap + rest == rest;
    } else {
      var g := gap[1..];
      assert gap + rest == [] + [gap[0]] + (g + rest);
      assert gap[0] in gap;
      RunsApart([], gap[0], g + rest);
      NoRuns("");
      GapBeforeRuns(g, rest);
    }
  }

  lemma {:induction false} RunOfWord(word: string)
    requires IsRun(word)
    ensures Runs(word) == [word]
  {
    var front, c := word[..|word| - 1], word[|word| - 1];
    assert word == front + [c] && c in word;
    if front != "" {
      RunOfWord(front);
      assert front[|front| - 1] in word;
    }
  }

  lemma WordBeforeRuns(word: string, rest: string)
    requires IsRun(word) && (rest == "" || !IsAlphanumeric(rest[0]))
    ensures Runs(word + rest) == [word] + Runs(rest)
  {
    hide Runs;
    RunOfWord(word);
    NoRuns("");
    if rest == "" {
      assert word + rest == word;
    } else {
      assert word + rest == word + [rest[0]] + rest[1..] && rest == [] + [rest[0]] + rest[1..];
      RunsApart(word, rest[0], rest[1..]);
      RunsApart([], rest[0], rest[1..]);
    }
  }

  lemma {:induction false} WovenRuns(words: seq<string>, gaps: seq<string>)
    requires |gaps| == |words| + 1 && AreGaps(gaps, NotAlphanumeric)
    requires AreRuns(words)
    ensures Runs(Woven(words, gaps)) == words
  {
    hide Runs;
    assert forall c | c in gaps[0] :: NotAlphanumeric(c);
    if words == [] {
      NoRuns(gaps[0]);
    } else {
      var rest := Woven(words[1..], gaps[1..]);
      WovenRuns(words[1..], gaps[1..]);
      assert words[0] in words && gaps[1] == gaps[1..][0];
      assert forall c | c in gaps[1] :: NotAlphanumeric(c);
      if rest != "" {
        assert gaps[1] != "" ==> rest[0] == gaps[1][0] && gaps[1][0] in gaps[1];
      }
      WordBeforeRuns(words[0], rest);
      GapBeforeRuns(gaps[0], words[0] + rest);
    }
  }

  lemma {:induction false} SkippedRuns(s: string)
    ensures Runs(SkipBlanks(s)) == Runs(s)
  {
    hide Runs;
    if s != "" && IsWhitespace(s[0]) {
      SkippedRuns(s[1..]);
      assert s == [s[0]] + s[1..];
      GapBeforeRuns([s[0]], s[1..]);
    }
  }

  /** Normalising whitespace neither joins nor splits runs. */
  lemma {:induction false} NormalizedRuns(s: string)
    ensures Runs(Join(Words(s), " ")) == Runs(s)
    decreases |s|
  {
    hide Runs;
    var t := SkipBlanks(s);
    SkippedRuns(s);
    if t != "" {
      var word, rest := t[..FirstBlank(t)], t[FirstBlank(t)..];
      assert t == word + rest && Words(s) == [word] + Words(rest);
      NormalizedRuns(rest);
      RestOfRuns(word, rest);
      RestOfRuns(word, if Words(rest) == [] then "" else " " + Join(Words(rest), " "));
      if Words(rest) != [] {
        GapBeforeRuns(" ", Join(Words(rest), " "));
        assert ([word] + Words(rest))[1..] == Words(rest);
        assert word + " " + Join(Words(rest), " ") == word + (" " + Join(Words(rest), " "));
      } else {
        assert word + "" == word;
      }
    }
  }

  lemma RestOfRuns(word: string, rest: string)
    requires rest == "" || !IsAlphanumeric(rest[0])
    ensures Runs(word + rest) == Runs(word) + Runs(rest)
  {
    hide Runs;
    NoRuns("");
    if rest == "" {
      assert word + rest == word;
    } else {
      assert word + rest == word + [rest[0]] + rest[1..] && rest == [] + [rest[0]] + rest[1..];
      RunsApart(word, rest[0], rest[1..]);
      RunsApart([], rest[0], rest[1..]);
    }
  }

  function Lowered(words: seq<string>): (r: seq<string>)
    ensures |r| == |words| && forall i | 0 <= i < |r| :: r[i] == ToLower(words[i])
  {
    seq(|words|, i requires 0 <= i < |words| => ToLower(words[i]))
  }

  lemma {:induction false} LoweredRuns(s: string)
    ensures Runs(ToLower(s)) == Lowered(Runs(s)) && EndsInRun(ToLower(s)) == EndsInRun(s)
  {
    if s != "" {
      hide Runs, Extended, Lowered;
      var front, c := s[..|s| - 1], s[|s| - 1];
      assert s == front + [c];
      assert ToLower(s) == ToLower(front) + [ToLowerChar(c)];
      LoweredRuns(front);
      RunsSnoc(front, c);
      RunsSnoc(ToLower(front), ToLowerChar(c));
      LoweredExtended(Runs(front), EndsInRun(front), c);
    }
  }

  lemma LoweredExtended(runs: seq<string>, inRun: bool, c: char)
    requires inRun ==> runs != []
    ensures Lowered(Extended(runs, inRun, c)) == Extended(Lowered(runs), inRun, ToLowerChar(c))
  {
    assert ToLower([c]) == [ToLowerChar(c)];
    if inRun {
      var run := runs[|runs| - 1];
      assert ToLower(run + [c]) == ToLower(run) + [ToLowerChar(c)];
    }
  }

  lemma {:induction false} JoinedCharacters(parts: seq<string>, separator: string)
    requires IsAscii(separator) && forall p | p in parts :: IsAscii(p)
    ensures IsAscii(Join(parts, separator))
  {
    if parts != [] { assert parts[0] in parts; }
    if |parts| > 1 { JoinedCharacters(parts[1..], separator); }
  }

  lemma {:induction false} WordsAreAscii(s: string)
    requires IsAscii(s)
    ensures forall w | w in Words(s) :: IsAscii(w)
    decreases |s|
  {
    var t := SkipBlanks(s);
    SkippedIsPart(s);
    if t != "" {
      var n := FirstBlank(t);
      assert forall c | c in t[..n] :: c in t;
      assert forall c | c in t[n..] :: c in t;
      WordsAreAscii(t[n..]);
    }
  }

  lemma {:induction false} SkippedIsPart(s: string)
    ensures forall c | c in SkipBlanks(s) :: c in s
  {
    if s != "" && IsWhitespace(s[0]) { SkippedIsPart(s[1..]); }
  }

  /** The slug of words put together, whatever ASCII punctuation and blanks stand around and between them: the
      words in lower case with single dashes, or the fallback if there are none. */
  lemma SlugOfWords(lower: string -> string, words: seq<string>, gaps: seq<string>, fallback: string)
    requires LowerOk(lower) && |gaps| == |words| + 1 && IsAscii(Woven(words, gaps))
    requires AreGaps(gaps, NotAlphanumeric)
    requires AreRuns(words)
    ensures Slug(lower, Woven(words, gaps), fallback)
         == if words == [] then fallback else Join(Lowered(words), "-")
  {
    hide Runs, Woven, Slug, Words, Join, ToLower, Lowered;
    var value := Woven(words, gaps);
    var text := Join(Words(value), " ");
    WordsAreWords(value);
    JoinedWordsAreTrimmed(Words(value));
    TrimmedIsFixed(text);
    WordsAreAscii(value);
    JoinedCharacters(Words(value), " ");
    SlugIsRuns(lower, value, fallback);
    NormalizedRuns(value);
    LoweredRuns(text);
    WovenRuns(words, gaps);
  }
}
