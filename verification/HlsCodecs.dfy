/** Attribute list surgery in src/live.rs: `remove_stream_inf_codecs_attribute` splits an attribute
    list (section 4.2 of RFC 8216) at the commas outside quotes, drops CODECS and joins the rest. */
module HlsCodecs {
  import opened Text

  // ---------------------------------------------------------------------------
  // Quotes and commas
  // ---------------------------------------------------------------------------

  function Quotes(s: string): nat {
    if s == "" then 0 else Quotes(s[..|s| - 1]) + if s[|s| - 1] == '"' then 1 else 0
  }

  /** A quoted string is open at the end of `s`. */
  predicate OpenQuote(s: string) { Quotes(s) % 2 == 1 }

  /** All commas stand inside quotes. */
  predicate OneAttribute(s: string) {
    forall i | 0 <= i < |s| && s[i] == ',' :: OpenQuote(s[..i])
  }

  /** No attribute holds a bare comma and only the last may lack its closing quote. */
  predicate WellSplit(parts: seq<string>) {
    && (forall i | 0 <= i < |parts| :: OneAttribute(parts[i]))
    && (forall i | 0 <= i < |parts| - 1 :: !OpenQuote(parts[i]))
  }

  predicate EndsInBareComma(s: string) {
    s != "" && s[|s| - 1] == ',' && !OpenQuote(s[..|s| - 1])
  }

  // ---------------------------------------------------------------------------
  // The split
  // ---------------------------------------------------------------------------

  /** Attributes that are complete and the one being read. */
  datatype Cut = Cut(parts: seq<string>, current: string)

  function CutUp(s: string): Cut {
    if s == "" then Cut([], "")
    else
      var before, ch := CutUp(s[..|s| - 1]), s[|s| - 1];
      if ch == ',' && !OpenQuote(s[..|s| - 1]) then Cut(before.parts + [before.current], "")
      else Cut(before.parts, before.current + [ch])
  }

  function Parts(s: string): seq<string> {
    var cut := CutUp(s);
    if cut.current == "" then cut.parts else cut.parts + [cut.current]
  }

  lemma CutSnoc(s: string, ch: char)
    ensures Quotes(s + [ch]) == Quotes(s) + if ch == '"' then 1 else 0
    ensures CutUp(s + [ch])
         == if ch == ',' && !OpenQuote(s) then Cut(CutUp(s).parts + [CutUp(s).current], "")
            else Cut(CutUp(s).parts, CutUp(s).current + [ch])
  {
    assert (s + [ch])[..|s|] == s;
  }

  method SplitAttributes(attributes: string) returns (parts: seq<string>)
    ensures parts == Parts(attributes)
  {
    parts := [];
    var current, inQuotes := "", false;
    for i := 0 to |attributes|
      invariant Cut(parts, current) == CutUp(attributes[..i])
      invariant inQuotes <==> OpenQuote(attributes[..i])
    {
      var ch := attributes[i];
      assert attributes[..i + 1] == attributes[..i] + [ch];
      CutSnoc(attributes[..i], ch);
      if ch == '"' {
        inQuotes := !inQuotes;
        current := current + [ch];
      } else if ch == ',' && !inQuotes {
        parts, current := parts + [current], "";
      } else {
        current := current + [ch];
      }
    }
    assert attributes[..|attributes|] == attributes;
    if current != "" {
      parts := parts + [current];
    }
  }

  // ---------------------------------------------------------------------------
  // What the split means
  // ---------------------------------------------------------------------------

  lemma {:induction false} JoinSnoc(parts: seq<string>, last: string)
    ensures Join(parts + [last], ",") == if parts == [] then last else Join(parts, ",") + "," + last
  {
    if parts == [] {
      assert [] + [last] == [last];
    } else {
      assert (parts + [last])[1..] == parts[1..] + [last];
      JoinSnoc(parts[1..], last);
      if |parts| > 1 {
        assert Join(parts, ",") + "," + last == parts[0] + "," + (Join(parts[1..], ",") + "," + last);
      }
    }
  }

  lemma OneAttributeSnoc(s: string, ch: char)
    requires OneAttribute(s) && (ch == ',' ==> OpenQuote(s))
    ensures OneAttribute(s + [ch])
  {
    forall i | 0 <= i < |s + [ch]| && (s + [ch])[i] == ',' ensures OpenQuote((s + [ch])[..i]) {
      assert (s + [ch])[..i] == s[..i];
      assert s[..|s|] == s;
    }
  }

  lemma CutNothing()
    ensures CutUp("") == Cut([], "") && !OpenQuote("") && Join([""], ",") == "" && WellSplit([""])
  {
  }

  /** The cut pieces, joined again, are the text; none was cut inside quotes. */
  lemma {:induction false} CutFacts(s: string)
    ensures var cut := CutUp(s);
      && Join(cut.parts + [cut.current], ",") == s
      && WellSplit(cut.parts + [cut.current]) && (OpenQuote(cut.current) <==> OpenQuote(s))
  {
    hide CutUp, Quotes, Join, WellSplit, OneAttribute;
    if s == "" {
      CutNothing();
      assert [] + [""] == [""];
    } else {
      var front, ch := s[..|s| - 1], s[|s| - 1];
      assert s == front + [ch];
      CutFacts(front);
      CutSnoc(front, ch);
      var before := CutUp(front);
      if ch == ',' && !OpenQuote(front) {
        JoinSnoc(before.parts + [before.current], "");
        CutNothing();
        Separated(before.parts + [before.current], "");
        assert front + "," + "" == s;
      } else {
        CutSnoc(before.current, ch);
        Extended(before.parts, before.current, ch);
      }
    }
  }

  lemma JoinLonger(parts: seq<string>, last: string, ch: char)
    ensures Join(parts + [last + [ch]], ",") == Join(parts + [last], ",") + [ch]
  {
    hide Join;
    JoinSnoc(parts, last);
    JoinSnoc(parts, last + [ch]);
    assert Join(parts, ",") + "," + (last + [ch]) == Join(parts, ",") + "," + last + [ch];
  }

  lemma EmptyIsOne()
    ensures OneAttribute("")
  {
  }

  lemma Separated(parts: seq<string>, last: string)
    requires WellSplit(parts) && parts != [] && !OpenQuote(parts[|parts| - 1]) && last == ""
    ensures WellSplit(parts + [last])
  {
    hide OneAttribute, OpenQuote;
    EmptyIsOne();
  }

  lemma Extended(parts: seq<string>, last: string, ch: char)
    requires WellSplit(parts + [last]) && (ch == ',' ==> OpenQuote(last))
    ensures WellSplit(parts + [last + [ch]])
    ensures Join(parts + [last + [ch]], ",") == Join(parts + [last], ",") + [ch]
  {
    hide OneAttribute, OpenQuote, Join;
    var before := parts + [last];
    assert before[|parts|] == last;
    assert forall i | 0 <= i < |parts| :: before[i] == parts[i];
    OneAttributeSnoc(last, ch);
    JoinLonger(parts, last, ch);
  }

  /** Splitting loses nothing but a bare comma at the end. */
  lemma SplitJoins(s: string)
    ensures WellSplit(Parts(s))
    ensures if EndsInBareComma(s) then Join(Parts(s), ",") + "," == s else Join(Parts(s), ",") == s
  {
    hide Join, Quotes, OneAttribute, WellSplit, CutUp;
    CutFacts(s);
    var cut := CutUp(s);
    JoinSnoc(cut.parts, cut.current);
    WellSplitSnoc(cut.parts, cut.current);
    CutNothing();
    JoinNothing();
    if s != "" {
      CutSnoc(s[..|s| - 1], s[|s| - 1]);
      assert s == s[..|s| - 1] + [s[|s| - 1]];
    }
  }

  lemma OneAttributePrefix(t: string, ch: char)
    requires OneAttribute(t + [ch])
    ensures OneAttribute(t) && (ch == ',' ==> OpenQuote(t))
  {
    hide Quotes, OpenQuote;
    var s := t + [ch];
    assert forall i | 0 <= i <= |t| :: s[..i] == t[..i];
    assert s[|t|] == ch && t[..|t|] == t;
    assert forall i | 0 <= i < |t| :: s[i] == t[i];
  }

  /** Cutting text that follows a bare comma or nothing. */
  lemma {:induction false} CutText(s: string, t: string)
    requires CutUp(s).current == "" && !OpenQuote(s) && OneAttribute(t)
    ensures CutUp(s + t) == Cut(CutUp(s).parts, t) && (OpenQuote(s + t) <==> OpenQuote(t))
  {
    hide CutUp, Quotes, OneAttribute;
    if t == "" {
      assert s + t == s;
      CutNothing();
    } else {
      var front, ch := t[..|t| - 1], t[|t| - 1];
      assert t == front + [ch] && s + t == s + front + [ch];
      OneAttributePrefix(front, ch);
      CutText(s, front);
      CutSnoc(s + front, ch);
      CutSnoc(front, ch);
    }
  }

  lemma {:induction false} CutJoined(parts: seq<string>)
    requires WellSplit(parts) && parts != []
    ensures CutUp(Join(parts, ",")) == Cut(parts[..|parts| - 1], parts[|parts| - 1])
    ensures OpenQuote(Join(parts, ",")) <==> OpenQuote(parts[|parts| - 1])
  {
    hide CutUp, Quotes, Join, OneAttribute;
    var front, last := parts[..|parts| - 1], parts[|parts| - 1];
    assert parts == front + [last];
    JoinSnoc(front, last);
    CutNothing();
    if front == [] {
      CutText("", last);
      assert "" + last == last;
    } else {
      assert front[|front| - 1] == parts[|front| - 1];
      CutJoined(front);
      var text := Join(front, ",");
      CutSnoc(text, ',');
      assert front[..|front| - 1] + [front[|front| - 1]] == front;
      CutText(text + [','], last);
      assert text + "," + last == text + [','] + last;
    }
  }

  lemma JoinNothing()
    ensures Join([], ",") == ""
  {
  }

  /** The split is the only one: attributes that are put together are taken apart again; an empty
      one at the end is lost. */
  lemma JoinSplits(parts: seq<string>)
    requires WellSplit(parts)
    ensures Parts(Join(parts, ","))
         == if parts != [] && parts[|parts| - 1] == "" then parts[..|parts| - 1] else parts
  {
    hide CutUp, WellSplit, Join;
    if parts == [] {
      CutNothing();
      JoinNothing();
    } else {
      CutJoined(parts);
      assert parts == parts[..|parts| - 1] + [parts[|parts| - 1]];
    }
  }

  // ---------------------------------------------------------------------------
  // Removing CODECS
  // ---------------------------------------------------------------------------

  const CODECS := "CODECS="

  predicate IsCodecs(attribute: string) { StartsWith(ToUpper(TrimStart(attribute)), CODECS) }

  predicate AllBlank(s: string) { forall c | c in s :: IsWhitespace(c) }

  /** The name of an attribute is CODECS, in any case and behind any blanks. */
  ghost predicate NamesCodecs(attribute: string) {
    exists blanks, name, value :: CodecsPieces(attribute, blanks, name, value)
  }

  predicate CodecsPieces(attribute: string, blanks: string, name: string, value: string) {
    attribute == blanks + (name + "=" + value) && AllBlank(blanks) && ToUpper(name) == "CODECS"
  }

  lemma {:induction false} TrimmedBehind(blanks: string, rest: string)
    requires AllBlank(blanks) && rest != "" && !IsWhitespace(rest[0])
    ensures TrimStart(blanks + rest) == rest
  {
    if blanks == "" {
      assert blanks + rest == rest;
    } else {
      assert blanks[0] in blanks && (blanks + rest)[1..] == blanks[1..] + rest;
      TrimmedBehind(blanks[1..], rest);
    }
  }

  lemma NamedText(name: string, value: string)
    requires ToUpper(name) == "CODECS"
    ensures StartsWith(ToUpper(name + "=" + value), CODECS) && name != "" && !IsWhitespace(name[0])
  {
    assert ToUpper(name + "=" + value) == ToUpper(name) + "=" + ToUpper(value);
    assert CODECS == "CODECS" + "=" && ToUpperChar(name[0]) == 'C';
  }

  lemma SplitName(t: string)
    requires StartsWith(ToUpper(t), CODECS)
    ensures |t| >= 7 && ToUpper(t[..6]) == "CODECS" && t == t[..6] + "=" + t[7..]
  {
    assert ToUpper(t)[..7] == CODECS && ToUpperChar(t[6]) == '=';
    assert ToUpper(t[..6]) == CODECS[..6] == "CODECS";
  }

  lemma CodecsNamed(attribute: string)
    ensures IsCodecs(attribute) <==> NamesCodecs(attribute)
  {
    hide TrimStart, ToUpper;
    var t := TrimStart(attribute);
    if IsCodecs(attribute) {
      TrimStartShape(attribute);
      SplitName(t);
      var blanks := attribute[..|attribute| - |t|];
      assert CodecsPieces(attribute, blanks, t[..6], t[7..]);
    }
    if blanks, name, value :| CodecsPieces(attribute, blanks, name, value) {
      NamedText(name, value);
      TrimmedBehind(blanks, name + "=" + value);
    }
  }

  function Others(parts: seq<string>): seq<string> {
    if parts == [] then []
    else
      var last := parts[|parts| - 1];
      Others(parts[..|parts| - 1]) + if IsCodecs(last) then [] else [last]
  }

  /** `remove_stream_inf_codecs_attribute` */
  function RemoveCodecs(line: string): string {
    var i := IndexOfChar(line, ':');
    if i == |line| then line else line[..i] + ":" + Join(Others(Parts(line[i + 1..])), ",")
  }

  method RemoveStreamInfCodecs(line: string) returns (out: string)
    ensures out == RemoveCodecs(line)
  {
    hide Join, Others, Parts;
    var i := IndexOfChar(line, ':');
    if i == |line| {
      return line;
    }
    var parts := SplitAttributes(line[i + 1..]);
    out := line[..i] + ":" + Join(Others(parts), ",");
  }

  /** The attributes of a tag line. */
  function Attributes(line: string): seq<string> {
    var i := IndexOfChar(line, ':');
    if i == |line| then [] else Parts(line[i + 1..])
  }

  lemma OthersSnoc(parts: seq<string>, last: string)
    ensures Others(parts + [last]) == if IsCodecs(last) then Others(parts) else Others(parts) + [last]
  {
    assert (parts + [last])[..|parts|] == parts;
  }

  lemma {:induction false} OthersOfOthers(parts: seq<string>)
    ensures Others(Others(parts)) == Others(parts)
    ensures forall p | p in Others(parts) :: p in parts && !IsCodecs(p)
    ensures forall p | p in parts && !IsCodecs(p) :: p in Others(parts)
    decreases |parts|
  {
    if parts != [] {
      hide IsCodecs;
      var front, last := parts[..|parts| - 1], parts[|parts| - 1];
      assert parts == front + [last];
      OthersOfOthers(front);
      OthersSnoc(front, last);
      OthersSnoc(Others(front), last);
    }
  }

  predicate AllClosed(parts: seq<string>) { forall p | p in parts :: !OpenQuote(p) }

  lemma WellSplitSnoc(front: seq<string>, last: string)
    ensures WellSplit(front + [last]) <==> WellSplit(front) && AllClosed(front) && OneAttribute(last)
  {
    hide OneAttribute, OpenQuote;
    var parts := front + [last];
    assert parts[|front|] == last;
    assert forall i | 0 <= i < |front| :: parts[i] == front[i] && front[i] in front;
  }

  lemma {:induction false} OthersWellSplit(parts: seq<string>)
    requires WellSplit(parts)
    ensures WellSplit(Others(parts))
    ensures AllClosed(parts) ==> AllClosed(Others(parts))
  {
    if parts != [] {
      hide IsCodecs, OneAttribute, OpenQuote, Others, WellSplit;
      var front, last := parts[..|parts| - 1], parts[|parts| - 1];
      assert parts == front + [last];
      WellSplitSnoc(front, last);
      OthersWellSplit(front);
      OthersSnoc(front, last);
      WellSplitSnoc(Others(front), last);
    }
  }

  /** The text in which no attribute but CODECS is lost: none of the others is empty and last. */
  predicate LastIsNotEmpty(parts: seq<string>) { parts == [] || parts[|parts| - 1] != "" }

  lemma RemovedLine(line: string)
    ensures var i := IndexOfChar(line, ':');
      if i == |line| then RemoveCodecs(line) == line
      else IndexOfChar(RemoveCodecs(line), ':') == i && RemoveCodecs(line)[..i] == line[..i]
           && RemoveCodecs(line)[i + 1..] == Join(Others(Attributes(line)), ",") && i < |RemoveCodecs(line)|
  {
    hide Join, Others, Parts;
    var i := IndexOfChar(line, ':');
    if i < |line| {
      var tail := Join(Others(Attributes(line)), ",");
      IndexOfCharAt(line[..i], tail, ':');
      assert line[..i] + [':'] + tail == RemoveCodecs(line);
    }
  }

  /** Removing CODECS keeps every other attribute, in order and whole; only an empty one that comes
      last is lost. */
  lemma KeepsOtherAttributes(line: string)
    ensures var others := Others(Attributes(line));
            Attributes(RemoveCodecs(line)) == if LastIsNotEmpty(others) then others else others[..|others| - 1]
    ensures forall a | a in Attributes(RemoveCodecs(line)) :: a in Attributes(line) && !IsCodecs(a)
  {
    hide Others, Parts, RemoveCodecs, IsCodecs, Join, WellSplit, AllClosed, EndsInBareComma, IndexOfChar;
    var i := IndexOfChar(line, ':');
    RemovedLine(line);
    OthersOfOthers(Attributes(line));
    if i < |line| {
      SplitJoins(line[i + 1..]);
      OthersWellSplit(Attributes(line));
      JoinSplits(Others(Attributes(line)));
    } else {
      NoAttributes();
    }
  }

  lemma NoAttributes()
    ensures Others([]) == []
  {
  }

  lemma {:induction false} JoinLosesEmpty(parts: seq<string>)
    requires parts != [] && parts[|parts| - 1] == ""
    ensures Join(parts[..|parts| - 1], ",") == Join(parts, ",") <==> |parts| == 1
  {
    assert parts == parts[..|parts| - 1] + [""];
    JoinSnoc(parts[..|parts| - 1], "");
    if |parts| > 1 {
      assert |Join(parts, ",")| == |Join(parts[..|parts| - 1], ",")| + 1;
    }
  }

  lemma {:induction false} OthersPrefix(parts: seq<string>)
    requires Others(parts) == parts && parts != []
    ensures Others(parts[..|parts| - 1]) == parts[..|parts| - 1]
  {
    var front, last := parts[..|parts| - 1], parts[|parts| - 1];
    OthersLength(front);
    assert parts == front + [last];
    OthersSnoc(front, last);
  }

  lemma {:induction false} OthersLength(parts: seq<string>)
    ensures |Others(parts)| <= |parts|
  {
    if parts != [] { OthersLength(parts[..|parts| - 1]); }
  }

  /** Removing twice is removing once, exactly unless several attributes stay and the last of them is
      empty. */
  lemma RemovalIsIdempotentExactly(line: string)
    ensures var others := Others(Attributes(line));
            RemoveCodecs(RemoveCodecs(line)) == RemoveCodecs(line) <==> LastIsNotEmpty(others) || |others| == 1
  {
    hide Others, Parts, RemoveCodecs, IsCodecs, Join;
    var once := RemoveCodecs(line);
    var i, others := IndexOfChar(line, ':'), Others(Attributes(line));
    RemovedLine(line);
    if i == |line| {
      NoAttributes();
    } else {
      RemovedLine(once);
      KeepsOtherAttributes(line);
      OthersOfOthers(Attributes(line));
      if !LastIsNotEmpty(others) {
        OthersPrefix(others);
        JoinLosesEmpty(others);
      }
      SameLine(once, RemoveCodecs(once), i);
    }
  }

  lemma SameLine(a: string, b: string, i: nat)
    requires i < |a| && i < |b| && a[..i] == b[..i] && a[i] == b[i]
    ensures a == b <==> a[i + 1..] == b[i + 1..]
  {
    assert a == a[..i] + [a[i]] + a[i + 1..];
    assert b == b[..i] + [b[i]] + b[i + 1..];
  }

  lemma {:induction false} PiecesAvoid(s: string, ch: char)
    requires ch !in s
    ensures (forall part | part in CutUp(s).parts :: ch !in part) && ch !in CutUp(s).current
  {
    if s != "" {
      assert forall x | x in s[..|s| - 1] :: x in s;
      PiecesAvoid(s[..|s| - 1], ch);
    }
  }

  lemma {:induction false} JoinAvoids(parts: seq<string>, ch: char)
    requires ch != ',' && forall part | part in parts :: ch !in part
    ensures ch !in Join(parts, ",")
  {
    if |parts| > 1 {
      assert parts[0] in parts && forall part | part in parts[1..] :: part in parts;
      JoinAvoids(parts[1..], ch);
    }
  }

  /** Removal brings no new character but commas and the colon. */
  lemma RemovalAvoids(line: string, ch: char)
    requires ch !in line && ch != ',' && ch != ':'
    ensures ch !in RemoveCodecs(line)
  {
    hide Join, Others, CutUp, IsCodecs;
    var i := IndexOfChar(line, ':');
    if i < |line| {
      var list := line[i + 1..];
      assert forall x | x in list :: x in line;
      PiecesAvoid(list, ch);
      OthersOfOthers(Parts(list));
      JoinAvoids(Others(Parts(list)), ch);
      assert forall x | x in line[..i] :: x in line;
    }
  }

  lemma {:induction false} NoCommaNoQuote(s: string)
    requires ',' !in s && '"' !in s
    ensures OneAttribute(s) && !OpenQuote(s)
  {
    hide OneAttribute;
    if s != "" {
      var front, ch := s[..|s| - 1], s[|s| - 1];
      assert s == front + [ch] && ch in s && forall x | x in front :: x in s;
      NoCommaNoQuote(front);
      OneAttributeSnoc(front, ch);
    } else {
      EmptyIsOne();
    }
  }

  lemma CodecsFacts()
    ensures IsCodecs("CODECS=x") && !IsCodecs("") && ',' !in "CODECS=x" && '"' !in "CODECS=x"
  {
    var s := "CODECS=x";
    assert |CODECS| == 7 && TrimStart(s) == s && ToUpper(s)[..7] == CODECS;
    assert |ToUpper("")| == 0 && TrimStart("") == "";
  }

  lemma ThreeParts(a: string)
    requires ',' !in a && '"' !in a && !IsCodecs(a)
    ensures Parts(a + ",,CODECS=x") == [a, "", "CODECS=x"] && Others([a, "", "CODECS=x"]) == [a, ""]
    ensures Join([a, ""], ",") == a + ","
  {
    hide OneAttribute, OpenQuote, IsCodecs, Others, Parts;
    CodecsFacts();
    NoCommaNoQuote(a);
    NoCommaNoQuote("");
    NoCommaNoQuote("CODECS=x");
    JoinSplits([a, "", "CODECS=x"]);
    assert [a, "", "CODECS=x"][1..] == ["", "CODECS=x"] && ["", "CODECS=x"][1..] == ["CODECS=x"];
    assert a + "," + ("" + "," + "CODECS=x") == a + ",,CODECS=x";
    NoAttributes();
    OthersSnoc([], a);
    OthersSnoc([a], "");
    OthersSnoc([a, ""], "CODECS=x");
    assert [] + [a] == [a] && [a] + [""] == [a, ""] && [a, ""] + ["CODECS=x"] == [a, "", "CODECS=x"];
    assert [a, ""][1..] == [""] && a + "," + "" == a + ",";
  }

  lemma OnePart(a: string)
    requires ',' !in a && '"' !in a && !IsCodecs(a)
    ensures Parts(a + ",") == [a] && Others([a]) == [a] && Join([a], ",") == a
  {
    hide OneAttribute, OpenQuote, IsCodecs, Others, Parts;
    NoCommaNoQuote(a);
    NoCommaNoQuote("");
    JoinSplits([a, ""]);
    assert [a, ""][1..] == [""] && a + "," + "" == a + ",";
    assert [a, ""][..1] == [a];
    NoAttributes();
    OthersSnoc([], a);
    assert [] + [a] == [a];
  }

  /** So with an empty attribute ahead of CODECS each removal takes off a comma. */
  lemma RemovalTwiceDiffers(name: string, a: string)
    requires ':' !in name && ',' !in a && '"' !in a && !IsCodecs(a)
    ensures var line := name + ":" + (a + ",,CODECS=x");
            RemoveCodecs(line) == name + ":" + (a + ",") && RemoveCodecs(RemoveCodecs(line)) == name + ":" + a
  {
    hide Others, Parts, Join, IsCodecs;
    ThreeParts(a);
    OnePart(a);
    RemovedFrom(name, a + ",,CODECS=x");
    RemovedFrom(name, a + ",");
  }

  lemma RemovedFrom(name: string, list: string)
    requires ':' !in name
    ensures RemoveCodecs(name + ":" + list) == name + ":" + Join(Others(Parts(list)), ",")
  {
    hide Others, Parts, Join;
    var line := name + ":" + list;
    assert line == name + [':'] + list;
    IndexOfCharAt(name, list, ':');
    assert line[..|name|] == name && line[|name| + 1..] == list;
  }
}
