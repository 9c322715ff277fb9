/** Which URI a player takes from a tag, read as an attribute list (section 4.2 of RFC 8216), and what the
    rewriter of src/live.rs, which looks for the first `URI="` anywhere on the line, makes of it. */
module HlsAttributes {
  import opened Text
  import opened HlsUri
  import opened HlsCodecs

  // ---------------------------------------------------------------------------
  // The player
  // ---------------------------------------------------------------------------

  const TAG := "#EXT"

  /** The attributes of a list, cut at the commas outside quotes; the last may be empty. */
  function Pieces(list: string): (r: seq<string>)
    ensures r != []
  {
    CutUp(list).parts + [CutUp(list).current]
  }

  /** The value of an attribute named URI. */
  function PieceUri(piece: string): Option<string> {
    var attribute := TrimStart(piece);
    if !StartsWith(attribute, URI_MARK) then None
    else
      var tail := attribute[|URI_MARK|..];
      var n := IndexOfChar(tail, '"');
      if n < |tail| then Some(tail[..n]) else None
  }

  function FirstUri(pieces: seq<string>): Option<string> {
    if pieces == [] then None
    else if PieceUri(pieces[0]).Some? then PieceUri(pieces[0])
    else FirstUri(pieces[1..])
  }

  /** The URI attribute of a tag; a tag name has no quotes. */
  function TagUri(line: string): Option<string> {
    var i := IndexOfChar(line, ':');
    if i == |line| || '"' in line[..i] then None else FirstUri(Pieces(line[i + 1..]))
  }

  /** The URI a player takes from a line: that of a tag, none from a comment, else the line itself. */
  function ChildOf(line: string): Option<string> {
    if StartsWith(line, TAG) then TagUri(line)
    else if StartsWith(line, "#") then None
    else Some(line)
  }

  // ---------------------------------------------------------------------------
  // Cutting text in two
  // ---------------------------------------------------------------------------

  /** How the pieces of `p + t` come from those of `p` and `t`: the two in the middle are one. */
  function Glued(p: Cut, t: Cut): Cut {
    if t.parts == [] then Cut(p.parts, p.current + t.current)
    else Cut(p.parts + [p.current + t.parts[0]] + t.parts[1..], t.current)
  }

  lemma GluedSnoc(p: Cut, t: Cut, ch: char)
    ensures Glued(p, Cut(t.parts, t.current + [ch]))
         == Cut(Glued(p, t).parts, Glued(p, t).current + [ch])
    ensures Glued(p, Cut(t.parts + [t.current], ""))
         == Cut(Glued(p, t).parts + [Glued(p, t).current], "")
  {
    assert p.current + (t.current + [ch]) == p.current + t.current + [ch];
    if t.parts == [] {
      assert p.parts + [p.current + t.current] + [] == p.parts + [p.current + t.current];
    } else {
      assert (t.parts + [t.current])[1..] == t.parts[1..] + [t.current];
    }
  }

  lemma {:induction false} CutConcat(p: string, t: string)
    requires !OpenQuote(p)
    ensures CutUp(p + t) == Glued(CutUp(p), CutUp(t)) && (OpenQuote(p + t) <==> OpenQuote(t))
  {
    hide CutUp, Quotes, Glued;
    if t == "" {
      assert p + t == p;
      CutNothing();
      GluedNothing(CutUp(p));
    } else {
      var front, ch := t[..|t| - 1], t[|t| - 1];
      assert t == front + [ch] && p + t == p + front + [ch];
      CutConcat(p, front);
      CutSnoc(p + front, ch);
      CutSnoc(front, ch);
      GluedSnoc(CutUp(p), CutUp(front), ch);
    }
  }

  lemma GluedNothing(p: Cut)
    ensures Glued(p, Cut([], "")) == p
  {
    assert p.current + "" == p.current;
  }

  // ---------------------------------------------------------------------------
  // A quoted attribute
  // ---------------------------------------------------------------------------

  function Quoted(value: string): string { URI_MARK + value + "\"" }

  lemma {:induction false} OpenValue(s: string, value: string)
    requires OneAttribute(s) && OpenQuote(s) && '"' !in value
    ensures OneAttribute(s + value) && OpenQuote(s + value)
  {
    hide Quotes, OneAttribute;
    if value == "" {
      assert s + value == s;
    } else {
      var front, ch := value[..|value| - 1], value[|value| - 1];
      assert s + value == s + front + [ch] && ch in value && forall x | x in front :: x in value;
      OpenValue(s, front);
      OneAttributeSnoc(s + front, ch);
      CutSnoc(s + front, ch);
    }
  }

  lemma MarkOpens()
    ensures OneAttribute(URI_MARK) && OpenQuote(URI_MARK)
  {
    hide OneAttribute;
    assert |"URI="| == 4 && URI_MARK == "URI=" + ['"'];
    assert ',' !in "URI=" && '"' !in "URI=";
    NoCommaNoQuote("URI=");
    OneAttributeSnoc("URI=", '"');
    CutSnoc("URI=", '"');
  }

  lemma QuotedIsOne(value: string)
    requires '"' !in value
    ensures CutUp(Quoted(value)) == Cut([], Quoted(value)) && !OpenQuote(Quoted(value))
  {
    hide OneAttribute, Quotes, CutUp;
    MarkOpens();
    OpenValue(URI_MARK, value);
    OneAttributeSnoc(URI_MARK + value, '"');
    CutSnoc(URI_MARK + value, '"');
    assert Quoted(value) == URI_MARK + value + ['"'];
    CutNothing();
    CutText("", Quoted(value));
    assert "" + Quoted(value) == Quoted(value);
  }

  lemma PiecesAround(p: string, value: string, rest: string)
    requires !OpenQuote(p) && '"' !in value
    ensures Pieces(p + (Quoted(value) + rest))
         == CutUp(p).parts + [CutUp(p).current + (Quoted(value) + Pieces(rest)[0])] + Pieces(rest)[1..]
  {
    hide CutUp, Quotes, Quoted;
    var u := Quoted(value);
    QuotedIsOne(value);
    CutConcat(u, rest);
    CutConcat(p, u + rest);
    GluedPieces(Cut([], u), CutUp(rest));
    GluedPieces(CutUp(p), CutUp(u + rest));
    assert [] + [u + Pieces(rest)[0]] + Pieces(rest)[1..] == [u + Pieces(rest)[0]] + Pieces(rest)[1..];
  }

  lemma GluedPieces(p: Cut, t: Cut)
    ensures var g, all := Glued(p, t), t.parts + [t.current];
            g.parts + [g.current] == p.parts + [p.current + all[0]] + all[1..]
  {
    if t.parts == [] {
      assert p.parts + [p.current + t.current] + [] == p.parts + [p.current + t.current];
    } else {
      assert (t.parts + [t.current])[1..] == t.parts[1..] + [t.current];
    }
  }

  // ---------------------------------------------------------------------------
  // No URI attribute ahead of the first mark
  // ---------------------------------------------------------------------------

  /** The mark occurs in `s`. */
  ghost predicate Marked(s: string) { exists j :: 0 <= j <= |s| && URI_MARK <= s[j..] }

  lemma MarkedPart(a: string, s: string, b: string)
    requires Marked(s)
    ensures Marked(a + s + b)
  {
    var j :| 0 <= j <= |s| && URI_MARK <= s[j..];
    PrefixAt(s, j, URI_MARK);
    PrefixAt(a + s + b, |a| + j, URI_MARK);
    assert (a + s + b)[|a| + j..|a| + j + |URI_MARK|] == s[j..j + |URI_MARK|];
  }

  lemma {:induction false} CurrentIsEnd(s: string)
    ensures |CutUp(s).current| <= |s| && CutUp(s).current == s[|s| - |CutUp(s).current|..]
  {
    hide CutUp, Quotes;
    if s == "" {
      CutNothing();
    } else {
      var front, ch := s[..|s| - 1], s[|s| - 1];
      assert s == front + [ch];
      CurrentIsEnd(front);
      CutSnoc(front, ch);
    }
  }

  lemma EndMarked(front: string, current: string, ch: char)
    requires |current| <= |front| && current == front[|front| - |current|..] && Marked(current)
    ensures Marked(front + [ch])
  {
    hide Marked;
    var before := front[..|front| - |current|];
    assert before + current == front;
    MarkedPart(before, current, [ch]);
  }

  lemma {:induction false} PartMarked(s: string, k: nat)
    requires k < |CutUp(s).parts| && Marked(CutUp(s).parts[k])
    ensures Marked(s)
  {
    hide OpenQuote, Marked, CutUp;
    CutNothing();
    var front, ch := s[..|s| - 1], s[|s| - 1];
    assert s == front + [ch];
    CutSnoc(front, ch);
    if k < |CutUp(front).parts| {
      PartMarked(front, k);
      MarkedPart("", front, [ch]);
      assert "" + front + [ch] == s;
    } else {
      CurrentIsEnd(front);
      EndMarked(front, CutUp(front).current, ch);
    }
  }

  /** Pieces are parts of the text. */
  lemma PiecesOf(s: string)
    ensures |CutUp(s).current| <= |s| && CutUp(s).current == s[|s| - |CutUp(s).current|..]
    ensures forall part | part in CutUp(s).parts && Marked(part) :: Marked(s)
  {
    hide Marked, CutUp;
    CurrentIsEnd(s);
    forall part | part in CutUp(s).parts && Marked(part) ensures Marked(s) {
      var k :| 0 <= k < |CutUp(s).parts| && CutUp(s).parts[k] == part;
      PartMarked(s, k);
    }
  }

  /** The first mark of `p + URI_MARK` is the one at its end. */
  ghost predicate MarkFirst(p: string) { forall j | 0 <= j < |p| :: !(URI_MARK <= (p + URI_MARK)[j..]) }

  lemma NotMarked(p: string)
    requires MarkFirst(p)
    ensures !Marked(p)
  {
    forall j | 0 <= j <= |p| ensures !(URI_MARK <= p[j..]) {
      assert (p + URI_MARK)[j..] == p[j..] + URI_MARK;
    }
  }

  lemma UnmarkedPiece(piece: string)
    requires !Marked(piece)
    ensures PieceUri(piece) == None
  {
    TrimStartShape(piece);
    var j := |piece| - |TrimStart(piece)|;
    assert TrimStart(piece) == piece[j..];
  }

  lemma {:induction false} FirstUriConcat(a: seq<string>, b: seq<string>)
    requires forall piece | piece in a :: PieceUri(piece) == None
    ensures FirstUri(a + b) == FirstUri(b)
  {
    hide PieceUri;
    if a == [] {
      assert a + b == b;
    } else {
      assert (a + b)[1..] == a[1..] + b && a[0] in a;
      FirstUriConcat(a[1..], b);
    }
  }

  lemma QuoteFreeIsUnmarked(s: string)
    requires '"' !in s
    ensures !Marked(s)
  {
    assert URI_MARK[4] == '"' && |URI_MARK| == 5;
    forall j | 0 <= j <= |s| ensures !(URI_MARK <= s[j..]) {
      assert j + 4 < |s| ==> s[j..][4] == s[j + 4] && s[j + 4] in s;
    }
  }

  /** A tag without quotes carries no URI. */
  lemma QuoteFreeHasNoUri(line: string)
    requires '"' !in line && StartsWith(line, "#")
    ensures ChildOf(line) == None
  {
    hide CutUp, PieceUri, Marked;
    var i := IndexOfChar(line, ':');
    if i < |line| {
      var list := line[i + 1..];
      assert forall ch | ch in list :: ch in line;
      QuoteFreeIsUnmarked(list);
      PiecesOf(list);
      assert forall ch | ch in CutUp(list).current :: ch in list;
      QuoteFreeIsUnmarked(CutUp(list).current);
      forall piece | piece in Pieces(list) ensures PieceUri(piece) == None { UnmarkedPiece(piece); }
      FirstUriConcat(Pieces(list), []);
      assert Pieces(list) + [] == Pieces(list);
    }
  }

  predicate Blank(s: string) { TrimStart(s) == "" }

  lemma {:induction false} TrimStartConcat(a: string, b: string)
    ensures TrimStart(a + b) == if Blank(a) then TrimStart(b) else TrimStart(a) + b
  {
    if a == "" {
      assert a + b == b;
    } else {
      assert (a + b)[1..] == a[1..] + b;
      if IsWhitespace(a[0]) { TrimStartConcat(a[1..], b); }
    }
  }

  lemma ValueRead(value: string, rest: string)
    requires '"' !in value
    ensures PieceUri(Quoted(value) + rest) == Some(value)
  {
    var s := Quoted(value) + rest;
    assert s[0] == 'U';
    assert s[|URI_MARK|..] == value + ['"'] + rest;
    assert URI_MARK <= s;
    IndexOfCharAt(value, rest, '"');
    assert (value + ['"'] + rest)[..|value|] == value;
  }

  /** A piece whose text ahead of the mark is not blank has another name. */
  lemma OtherName(p: string, current: string, tail: string)
    requires MarkFirst(p) && |current| <= |p| && current == p[|p| - |current|..] && !Blank(current)
    requires URI_MARK <= tail
    ensures PieceUri(current + tail) == None
  {
    TrimStartConcat(current, tail);
    TrimStartShape(current);
    var own := TrimStart(current);
    var j := |p| - |own|;
    assert own == p[j..];
    assert (p + URI_MARK)[j..] == own + URI_MARK;
    assert tail[..|URI_MARK|] == URI_MARK;
    assert (own + tail)[..|own| + |URI_MARK|] == own + URI_MARK;
    SamePrefix(own + tail, own + URI_MARK, |own| + |URI_MARK|, URI_MARK);
  }

  lemma SamePrefix(a: string, b: string, n: nat, prefix: string)
    requires |prefix| <= n <= |a| && n <= |b| && a[..n] == b[..n]
    ensures prefix <= a <==> prefix <= b
  {
    assert a[..|prefix|] == a[..n][..|prefix|] && b[..|prefix|] == b[..n][..|prefix|];
  }

  /** What a player reads from a list in which the first mark stands outside quotes: the value behind it,
      if that is the attribute's whole name, and otherwise what comes in a later attribute. */
  lemma ReadAround(p: string, value: string, rest: string)
    requires !OpenQuote(p) && '"' !in value && MarkFirst(p)
    ensures FirstUri(Pieces(p + (Quoted(value) + rest)))
         == if Blank(CutUp(p).current) then Some(value) else FirstUri(Pieces(rest)[1..])
  {
    hide CutUp, Quotes, Quoted, PieceUri, Marked, MarkFirst, Blank;
    var cut, rests := CutUp(p), Pieces(rest);
    var piece := cut.current + (Quoted(value) + rests[0]);
    PiecesAround(p, value, rest);
    PiecesOf(p);
    NotMarked(p);
    forall part | part in cut.parts ensures PieceUri(part) == None { UnmarkedPiece(part); }
    FirstUriConcat(cut.parts, [piece] + rests[1..]);
    assert cut.parts + [piece] + rests[1..] == cut.parts + ([piece] + rests[1..]);
    assert ([piece] + rests[1..])[1..] == rests[1..];
    if Blank(cut.current) {
      BlankPiece(cut.current, value, rests[0]);
    } else {
      QuotedStarts(value, rests[0]);
      OtherName(p, cut.current, Quoted(value) + rests[0]);
    }
  }

  lemma QuotedStarts(value: string, rest: string)
    ensures URI_MARK <= Quoted(value) + rest
  {
  }

  lemma BlankPiece(current: string, value: string, rest: string)
    requires Blank(current) && '"' !in value
    ensures PieceUri(current + (Quoted(value) + rest)) == Some(value)
  {
    var tail := Quoted(value) + rest;
    ValueRead(value, rest);
    TrimStartConcat(current, tail);
    assert tail[0] == 'U' && TrimStart(tail) == tail;
  }

  // ---------------------------------------------------------------------------
  // The first mark at the end of a quoted value
  // ---------------------------------------------------------------------------

  /** The URI in the attributes after the one in which the text behind the value stands. */
  function Beyond(rest: string): Option<string> { FirstUri(Pieces("\"" + rest)[1..]) }

  /** The URI attribute whose name is the end of the value. */
  function Swallowed(value: string, rest: string): Option<string> {
    var cut := CutUp(value);
    if cut.parts == [] then None else PieceUri(cut.current + Pieces("\"" + rest)[0])
  }

  lemma {:induction false} CutPlain(p: string, t: string)
    requires ',' !in t
    ensures CutUp(p + t) == Cut(CutUp(p).parts, CutUp(p).current + t)
  {
    hide CutUp, Quotes;
    if t == "" {
      assert p + t == p && CutUp(p).current + "" == CutUp(p).current;
    } else {
      var front, ch := t[..|t| - 1], t[|t| - 1];
      assert p + t == p + front + [ch] && ch in t && forall x | x in front :: x in t;
      CutPlain(p, front);
      CutSnoc(p + front, ch);
      assert CutUp(p).current + front + [ch] == CutUp(p).current + t;
    }
  }

  lemma {:induction false} QuoteFreeIsClosed(s: string)
    requires '"' !in s
    ensures !OpenQuote(s)
  {
    if s != "" {
      assert s[|s| - 1] in s && forall x | x in s[..|s| - 1] :: x in s;
      QuoteFreeIsClosed(s[..|s| - 1]);
    }
  }

  lemma {:induction false} NotBlankIn(s: string, ch: char)
    requires ch in s && !IsWhitespace(ch)
    ensures !Blank(s)
  {
    if IsWhitespace(s[0]) { NotBlankIn(s[1..], ch); }
  }

  lemma OpenIsNotBlank(p: string)
    requires OpenQuote(p)
    ensures !Blank(CutUp(p).current)
  {
    hide CutUp, Blank;
    CutFacts(p);
    if '"' in CutUp(p).current {
      NotBlankIn(CutUp(p).current, '"');
    } else {
      QuoteFreeIsClosed(CutUp(p).current);
    }
  }

  lemma MarkCloses(p: string)
    requires OpenQuote(p)
    ensures !OpenQuote(p + URI_MARK)
    ensures CutUp(p + URI_MARK) == Cut(CutUp(p).parts, CutUp(p).current + URI_MARK)
  {
    hide CutUp, Quotes;
    assert URI_MARK == "URI=" + ['"'] && ',' !in URI_MARK && '"' !in "URI=";
    CutPlain(p, URI_MARK);
    QuotesConcat(p, "URI=");
    CutSnoc(p + "URI=", '"');
    assert p + URI_MARK == p + "URI=" + ['"'];
  }

  lemma {:induction false} QuotesConcat(p: string, t: string)
    requires '"' !in t
    ensures Quotes(p + t) == Quotes(p)
  {
    if t == "" {
      assert p + t == p;
    } else {
      var front, ch := t[..|t| - 1], t[|t| - 1];
      assert p + t == p + front + [ch] && ch in t && forall x | x in front :: x in t;
      QuotesConcat(p, front);
      CutSnoc(p + front, ch);
    }
  }

  /** The pieces of a value without quotes and what stands behind it. */
  lemma ValuePieces(value: string, rest: string)
    requires '"' !in value
    ensures var cut, more := CutUp(value), Pieces("\"" + rest);
            Pieces(value + ("\"" + rest)) == cut.parts + [cut.current + more[0]] + more[1..]
    ensures forall piece | piece in CutUp(value).parts :: PieceUri(piece) == None
  {
    hide CutUp, Quotes, PieceUri, Marked;
    QuoteFreeIsClosed(value);
    CutConcat(value, "\"" + rest);
    GluedPieces(CutUp(value), CutUp("\"" + rest));
    PiecesAvoid(value, '"');
    forall piece | piece in CutUp(value).parts ensures PieceUri(piece) == None {
      QuoteFreeIsUnmarked(piece);
      UnmarkedPiece(piece);
    }
  }

  /** What a player reads from a list in which the first mark ends a quoted value. */
  lemma ReadQuotedEnd(p: string, value: string, rest: string)
    requires OpenQuote(p) && '"' !in value && MarkFirst(p)
    ensures FirstUri(Pieces(p + (Quoted(value) + rest)))
         == if Swallowed(value, rest).Some? then Swallowed(value, rest) else Beyond(rest)
  {
    hide CutUp, Quotes, Quoted, PieceUri, Marked, MarkFirst, Blank, Pieces;
    var cut, own, more := CutUp(p), CutUp(value), Pieces("\"" + rest);
    var tail := value + ("\"" + rest);
    QuotedEndText(p, value, rest);
    ValuePieces(value, rest);
    MarkCloses(p);
    GluedAt(p + URI_MARK, tail);
    var head := cut.current + URI_MARK + Pieces(tail)[0];
    assert Pieces(p + URI_MARK + tail) == cut.parts + [head] + Pieces(tail)[1..];
    PiecesOf(p);
    NotMarked(p);
    forall part | part in cut.parts ensures PieceUri(part) == None { UnmarkedPiece(part); }
    OpenIsNotBlank(p);
    OtherName(p, cut.current, URI_MARK + Pieces(tail)[0]);
    assert head == cut.current + (URI_MARK + Pieces(tail)[0]);
    FirstUriConcat(cut.parts + [head], Pieces(tail)[1..]);
    if own.parts == [] {
      assert Pieces(tail)[1..] == more[1..];
    } else {
      assert Pieces(tail)[1..] == own.parts[1..] + ([own.current + more[0]] + more[1..]);
      FirstUriConcat(own.parts[1..], [own.current + more[0]] + more[1..]);
      assert ([own.current + more[0]] + more[1..])[1..] == more[1..];
    }
  }

  lemma QuotedEndText(p: string, value: string, rest: string)
    ensures p + (Quoted(value) + rest) == p + URI_MARK + (value + ("\"" + rest))
  {
  }

  lemma GluedAt(p: string, tail: string)
    requires !OpenQuote(p)
    ensures Pieces(p + tail) == CutUp(p).parts + [CutUp(p).current + Pieces(tail)[0]] + Pieces(tail)[1..]
  {
    hide CutUp, Quotes;
    CutConcat(p, tail);
    GluedPieces(CutUp(p), CutUp(tail));
  }

  /** A value without commas swallows nothing. */
  lemma PlainValueSwallowsNothing(value: string, rest: string)
    requires ',' !in value && '"' !in value
    ensures Swallowed(value, rest) == None
  {
    hide CutUp, PieceUri;
    CutNothing();
    CutPlain("", value);
    assert "" + value == value;
  }

  // ---------------------------------------------------------------------------
  // The rewriter
  // ---------------------------------------------------------------------------

  /** A tag by its parts around a quoted value. */
  function TagText(name: string, p: string, value: string, rest: string): string {
    name + ":" + (p + (Quoted(value) + rest))
  }

  predicate TagName(name: string) { StartsWith(name, TAG) && ':' !in name && '"' !in name }

  lemma TagUriOf(name: string, list: string)
    requires TagName(name)
    ensures ChildOf(name + ":" + list) == FirstUri(Pieces(list))
  {
    hide Pieces, FirstUri;
    var line := name + ":" + list;
    assert line == name + [':'] + list;
    IndexOfCharAt(name, list, ':');
    assert line[..|name|] == name && line[|name| + 1..] == list;
    assert TAG <= line;
  }

  /** Where the rewriter finds its first mark: on a tag, behind the first colon, and then either outside
      quotes or at the end of a quoted value. */
  datatype Place = Nowhere | At(name: string, p: string, value: string, rest: string)

  function PlaceOf(line: string): Place {
    var i := IndexOfChar(line, ':');
    match UriAttribute(line)
    case None => Nowhere
    case Some((start, end)) =>
      if !StartsWith(line, TAG) || i + 1 + |URI_MARK| > start || '"' in line[..i] then Nowhere
      else At(line[..i], line[i + 1..start - |URI_MARK|], line[start..end], line[end + 1..])
  }

  lemma PlaceFacts(line: string)
    requires PlaceOf(line).At?
    ensures var at := PlaceOf(line);
      && TagName(at.name) && '"' !in at.value && MarkFirst(at.p)
      && line == TagText(at.name, at.p, at.value, at.rest)
      && UriAttribute(line).Some? && line[UriAttribute(line).value.0..UriAttribute(line).value.1] == at.value
  {
    hide IndexOf, IndexOfChar, MarkFirst, TagText;
    var i := IndexOfChar(line, ':');
    var (start, end) := UriAttribute(line).value;
    MarkAt(line, URI_MARK);
    PlaceName(line, i);
    PlaceFirst(line, i + 1, start);
    PlaceShape(line, i, start, end);
  }

  lemma PlaceName(line: string, i: nat)
    requires StartsWith(line, TAG) && i < |line| && line[i] == ':'
    ensures StartsWith(line[..i], TAG)
  {
    assert |TAG| == 4 && line[0] == '#' && line[1] == 'E' && line[2] == 'X' && line[3] == 'T';
    assert i >= 4;
    assert line[..i][..4] == line[..4];
  }

  lemma PlaceFirst(line: string, from: nat, start: nat)
    requires from + |URI_MARK| <= start <= |line| && line[start - |URI_MARK|..start] == URI_MARK
    requires forall j | 0 <= j < start - |URI_MARK| :: !(URI_MARK <= line[j..])
    ensures MarkFirst(line[from..start - |URI_MARK|])
  {
    var p := line[from..start - |URI_MARK|];
    forall j | 0 <= j < |p| ensures !(URI_MARK <= (p + URI_MARK)[j..]) {
      MarkPlace(line, from, start, p, j);
    }
  }

  lemma PlaceShape(line: string, i: nat, start: nat, end: nat)
    requires i + 1 + |URI_MARK| <= start <= end < |line| && line[i] == ':' && line[end] == '"'
    requires line[start - |URI_MARK|..start] == URI_MARK
    ensures line == TagText(line[..i], line[i + 1..start - |URI_MARK|], line[start..end], line[end + 1..])
  {
    assert line[..i] + ":" == line[..i + 1];
    assert line == line[..i + 1] + (line[i + 1..start - |URI_MARK|] + (URI_MARK + line[start..end] + ['"']
        + line[end + 1..]));
  }

  lemma MarkPlace(line: string, from: nat, start: nat, p: string, j: nat)
    requires from + |URI_MARK| <= start <= |line| && p == line[from..start - |URI_MARK|] && j < |p|
    requires line[start - |URI_MARK|..start] == URI_MARK && !(URI_MARK <= line[from + j..])
    ensures !(URI_MARK <= (p + URI_MARK)[j..])
  {
    assert p + URI_MARK == line[from..start];
    assert (p + URI_MARK)[j..] == line[from + j..start];
    assert line[from + j..][..start - from - j] == line[from + j..start];
  }

  lemma ReadPlace(name: string, p: string, value: string, rest: string)
    requires TagName(name) && '"' !in value && MarkFirst(p) && !OpenQuote(p)
    ensures ChildOf(TagText(name, p, value, rest))
         == if Blank(CutUp(p).current) then Some(value) else FirstUri(Pieces(rest)[1..])
  {
    hide CutUp, Quotes, Quoted, MarkFirst, Blank, Pieces, FirstUri, ChildOf;
    TagUriOf(name, p + (Quoted(value) + rest));
    ReadAround(p, value, rest);
  }

  lemma ReadQuotedPlace(name: string, p: string, value: string, rest: string)
    requires TagName(name) && '"' !in value && MarkFirst(p) && OpenQuote(p)
    ensures ChildOf(TagText(name, p, value, rest))
         == if Swallowed(value, rest).Some? then Swallowed(value, rest) else Beyond(rest)
  {
    hide CutUp, Quotes, Quoted, MarkFirst, Pieces, FirstUri, ChildOf, Swallowed, Beyond;
    TagUriOf(name, p + (Quoted(value) + rest));
    ReadQuotedEnd(p, value, rest);
  }

  /** What the rewriter puts in place of the value it found; None when it leaves the line alone. */
  function Inserted(c: Context, kind: Kind, line: string): Option<string> {
    if PlaceOf(line).At? then Child(c, kind, PlaceOf(line).value) else None
  }

  lemma RewrittenPlace(c: Context, kind: Kind, line: string)
    requires PlaceOf(line).At?
    ensures var at := PlaceOf(line);
            RewriteTag(c, kind, line)
            == TagText(at.name, at.p, if Inserted(c, kind, line).Some? then Inserted(c, kind, line).value else at.value,
                       at.rest)
  {
    hide Child, IndexOfChar, IndexOf, MarkFirst, TagText;
    PlaceFacts(line);
    var (start, end) := UriAttribute(line).value;
    MarkAt(line, URI_MARK);
    if Inserted(c, kind, line).Some? {
      PlaceSplice(line, IndexOfChar(line, ':'), start, end, Inserted(c, kind, line).value);
    }
  }

  lemma PlaceSplice(line: string, i: nat, start: nat, end: nat, child: string)
    requires i + 1 + |URI_MARK| <= start <= end < |line| && line[i] == ':' && line[end] == '"'
    requires line[start - |URI_MARK|..start] == URI_MARK
    ensures line[..start] + child + line[end..]
         == TagText(line[..i], line[i + 1..start - |URI_MARK|], child, line[end + 1..])
  {
    var after := line[..start] + child + line[end..];
    assert after[..i] == line[..i] && after[i + 1..start - |URI_MARK|] == line[i + 1..start - |URI_MARK|];
    assert after[start - |URI_MARK|..start] == URI_MARK && after[start..start + |child|] == child;
    assert after[start + |child| + 1..] == line[end + 1..];
    PlaceShape(after, i, start, start + |child|);
  }

  /** The first mark of the line is the name of the attribute a player looks for. */
  predicate Reaches(line: string) {
    var at := PlaceOf(line);
    at.At? && !OpenQuote(at.p) && Blank(CutUp(at.p).current)
  }

  /** The first mark of the line ends a quoted value. */
  predicate EndsQuotedValue(line: string) {
    PlaceOf(line).At? && OpenQuote(PlaceOf(line).p)
  }

  /** A character that comes first ahead of a change still does. */
  lemma {:induction false} FirstStays(line: string, after: string, start: nat, ch: char)
    requires start <= |line| && start <= |after| && line[..start] == after[..start]
    ensures if IndexOfChar(line, ch) < start then IndexOfChar(after, ch) == IndexOfChar(line, ch)
            else IndexOfChar(after, ch) >= start
  {
    if start > 0 {
      assert line[0] == line[..start][0] && after[0] == after[..start][0];
      if line[0] != ch {
        assert line[1..][..start - 1] == line[..start][1..] && after[1..][..start - 1] == after[..start][1..];
        FirstStays(line[1..], after[1..], start - 1, ch);
      }
    }
  }

  lemma QuoteInName(line: string, start: nat)
    requires 0 < start <= |line| && line[start - 1] == '"' && start <= IndexOfChar(line, ':')
    ensures TagUri(line) == None
  {
    hide FirstUri, Pieces;
    assert line[..IndexOfChar(line, ':')][start - 1] == '"';
  }

  lemma SameName(line: string, after: string, start: nat)
    requires start <= |line| && start <= |after| && line[..start] == after[..start]
    requires IndexOfChar(line, ':') < start && '"' in line[..IndexOfChar(line, ':')]
    ensures TagUri(line) == None && TagUri(after) == None
  {
    hide FirstUri, Pieces;
    var i := IndexOfChar(line, ':');
    FirstStays(line, after, start, ':');
    assert after[..i] == after[..start][..i] && line[..i] == line[..start][..i];
  }

  /** When the rewriter changes something else than an attribute list, no URI was there and none appears. */
  lemma NowhereStays(c: Context, kind: Kind, line: string)
    requires StartsWith(line, "#") && PlaceOf(line).Nowhere?
    ensures ChildOf(RewriteTag(c, kind, line)) == ChildOf(line)
  {
    hide TagUri, IndexOfChar, Child, QuotedAfter;
    var after := RewriteTag(c, kind, line);
    assert '"' !in TAG && '"' !in "#";
    RewrittenTagName(c, kind, line, TAG);
    RewrittenTagName(c, kind, line, "#");
    if UriAttribute(line).Some? && StartsWith(line, TAG) && after != line {
      NowhereUnread(c, kind, line);
    }
  }

  lemma NowhereUnread(c: Context, kind: Kind, line: string)
    requires StartsWith(line, TAG) && PlaceOf(line).Nowhere? && UriAttribute(line).Some?
    ensures TagUri(RewriteTag(c, kind, line)) == TagUri(line)
  {
    hide TagUri, IndexOf, IndexOfChar, Child;
    MarkAt(line, URI_MARK);
    var (start, end) := UriAttribute(line).value;
    var i, after := IndexOfChar(line, ':'), RewriteTag(c, kind, line);
    if after != line {
      assert line[start - 1] == line[start - |URI_MARK|..start][|URI_MARK| - 1] == '"';
      assert after[..start] == line[..start];
      if i + 1 + |URI_MARK| > start {
        MarkHasNoColon(line, start, i);
        FirstStays(line, after, start, ':');
        QuoteInName(line, start);
        QuoteInName(after, start);
      } else {
        SameName(line, after, start);
      }
    }
  }

  lemma MarkHasNoColon(line: string, start: nat, i: nat)
    requires |URI_MARK| <= start <= |line| && line[start - |URI_MARK|..start] == URI_MARK
    requires i == IndexOfChar(line, ':') && i + 1 + |URI_MARK| > start
    ensures start <= i
  {
    assert ':' !in URI_MARK;
    forall k | start - |URI_MARK| <= k < start ensures line[k] != ':' {
      assert line[k] == line[start - |URI_MARK|..start][k - (start - |URI_MARK|)];
    }
  }

  /** At the player's attribute: the player then reads what was put there up to its first quote, so all of
      it exactly if that holds no quote. */
  lemma ReachedExactly(c: Context, kind: Kind, line: string)
    requires Reaches(line)
    ensures ChildOf(line) == Some(PlaceOf(line).value)
    ensures match Inserted(c, kind, line)
            case None => RewriteTag(c, kind, line) == line
            case Some(child) =>
              && ChildOf(RewriteTag(c, kind, line)) == Some(child[..IndexOfChar(child, '"')])
              && (ChildOf(RewriteTag(c, kind, line)) == Some(child) <==> '"' !in child)
  {
    hide CutUp, Quotes, MarkFirst, Blank, ChildOf, TagText, Child, PlaceOf, RewriteTag;
    var at := PlaceOf(line);
    PlaceFacts(line);
    RewrittenPlace(c, kind, line);
    ReadPlace(at.name, at.p, at.value, at.rest);
    if Inserted(c, kind, line).Some? {
      var child := Inserted(c, kind, line).value;
      var n := IndexOfChar(child, '"');
      if n == |child| {
        assert child[..n] == child;
        ReadPlace(at.name, at.p, child, at.rest);
      } else {
        BrokenText(at.name, at.p, child, n, at.rest);
        ReadPlace(at.name, at.p, child[..n], child[n + 1..] + "\"" + at.rest);
        assert child[..n] != child;
      }
    }
  }

  lemma BrokenText(name: string, p: string, child: string, n: nat, rest: string)
    requires n < |child| && child[n] == '"'
    ensures TagText(name, p, child, rest) == TagText(name, p, child[..n], child[n + 1..] + "\"" + rest)
  {
    assert child == child[..n] + ['"'] + child[n + 1..];
    assert Quoted(child) + rest == Quoted(child[..n]) + (child[n + 1..] + "\"" + rest);
  }

  /** What is put in place of a value holds no quote, and no comma where the value stands outside quotes. A
      proxied URL never does. */
  predicate InsertsCleanly(c: Context, kind: Kind, line: string) {
    var child := Inserted(c, kind, line);
    child.Some? ==> '"' !in child.value && (EndsQuotedValue(line) ==> ',' !in child.value)
  }

  lemma ProxiedInsertsCleanly(c: Context, kind: Kind, line: string)
    requires ContextOk(c) && !c.directSegments
    ensures InsertsCleanly(c, kind, line)
  {
    hide ChildUrl, PlaceOf, EndsQuotedValue;
    if Inserted(c, kind, line).Some? { ChildUrlIsText(c, kind, PlaceOf(line).value); }
  }

  /** The rewriter writes over the name of the player's URI attribute: its first mark ends a quoted value, and
      the text up to the next quote ends in that name. */
  predicate Overwrites(line: string) {
    EndsQuotedValue(line) && Swallowed(PlaceOf(line).value, PlaceOf(line).rest).Some?
  }

  /** The URI a player finds in a rewritten tag in which the rewriter does not reach it. */
  function Left(c: Context, kind: Kind, line: string): Option<string> {
    if Overwrites(line) && Inserted(c, kind, line).Some? then Beyond(PlaceOf(line).rest) else ChildOf(line)
  }

  /** The URI a player takes from a rewritten tag: the rewritten one if the first mark is the player's attribute,
      otherwise still the upstream one, unless that was written over. */
  lemma RewrittenTagIs(c: Context, kind: Kind, line: string)
    requires StartsWith(line, "#") && InsertsCleanly(c, kind, line)
    ensures StartsWith(RewriteTag(c, kind, line), "#")
    ensures Reaches(line) ==> ChildOf(line).Some?
    ensures ChildOf(RewriteTag(c, kind, line))
         == if Reaches(line) then Some(RewriteUriLine(c, kind, ChildOf(line).value)) else Left(c, kind, line)
  {
    hide CutUp, Quotes, MarkFirst, Blank, ChildOf, TagText, Child, PlaceOf, RewriteTag, Pieces, Swallowed, Beyond;
    assert '"' !in "#";
    RewrittenTagName(c, kind, line, "#");
    if Reaches(line) {
      ReachedExactly(c, kind, line);
    } else if PlaceOf(line).At? {
      var at := PlaceOf(line);
      PlaceFacts(line);
      RewrittenPlace(c, kind, line);
      if EndsQuotedValue(line) {
        ReadQuotedPlace(at.name, at.p, at.value, at.rest);
        if Inserted(c, kind, line).Some? {
          ReadQuotedPlace(at.name, at.p, Inserted(c, kind, line).value, at.rest);
          PlainValueSwallowsNothing(Inserted(c, kind, line).value, at.rest);
        }
      } else {
        ReadPlace(at.name, at.p, at.value, at.rest);
        if Inserted(c, kind, line).Some? { ReadPlace(at.name, at.p, Inserted(c, kind, line).value, at.rest); }
      }
    } else {
      NowhereStays(c, kind, line);
    }
  }

  /** The player gets from a rewritten tag what it should: the rewritten URI, if there was one. */
  predicate GetsRewritten(c: Context, kind: Kind, line: string) {
    ChildOf(RewriteTag(c, kind, line))
    == match ChildOf(line) case None => None case Some(value) => Some(RewriteUriLine(c, kind, value))
  }

  /** It does exactly when no earlier attribute name ends in URI, or there is nothing to rewrite; and when the
      name is written over, only if a later attribute happens to say the same. */
  lemma RewrittenTagChild(c: Context, kind: Kind, line: string)
    requires StartsWith(line, "#") && InsertsCleanly(c, kind, line)
    ensures !(Overwrites(line) && Inserted(c, kind, line).Some?) ==>
              (GetsRewritten(c, kind, line)
               <==> Reaches(line) || ChildOf(line).None?
                    || RewriteUriLine(c, kind, ChildOf(line).value) == ChildOf(line).value)
    ensures Overwrites(line) && Inserted(c, kind, line).Some? ==>
              ChildOf(line).Some?
              && (GetsRewritten(c, kind, line)
                  <==> Beyond(PlaceOf(line).rest) == Some(RewriteUriLine(c, kind, ChildOf(line).value)))
  {
    hide CutUp, Quotes, MarkFirst, Blank, ChildOf, TagText, PlaceOf, RewriteTag, Swallowed, Beyond, RewriteUriLine;
    RewrittenTagIs(c, kind, line);
    if Overwrites(line) {
      var at := PlaceOf(line);
      PlaceFacts(line);
      ReadQuotedPlace(at.name, at.p, at.value, at.rest);
    }
  }

  // ---------------------------------------------------------------------------
  // Where it fails
  // ---------------------------------------------------------------------------

  lemma MarkInName(name: string, tail: string, j: nat)
    requires TagName(name) && j <= |name|
    ensures !(URI_MARK <= (name + ":" + tail)[j..])
  {
    var line := name + ":" + tail;
    assert URI_MARK[4] == '"' && ':' !in URI_MARK && |URI_MARK| == 5;
    PrefixAt(line, j, URI_MARK);
    if j + 4 < |name| {
      assert line[j + 4] == name[j + 4] && name[j + 4] in name;
      assert j + 5 <= |line| ==> line[j..j + 5][4] == line[j + 4];
    } else {
      assert line[|name|] == ':';
      assert j + 5 <= |line| ==> line[j..j + 5][|name| - j] == line[|name|];
    }
  }

  lemma PlaceIs(name: string, p: string, value: string, rest: string)
    requires TagName(name) && '"' !in value && MarkFirst(p)
    ensures PlaceOf(TagText(name, p, value, rest)) == At(name, p, value, rest)
  {
    hide IndexOf, IndexOfChar, MarkFirst, TagText, QuotedAfter;
    var line := TagText(name, p, value, rest);
    var i := |name| + 1 + |p|;
    MarkIs(name, p, value, rest);
    TagIs(name, p, value, rest);
  }

  lemma TagIs(name: string, p: string, value: string, rest: string)
    requires TagName(name)
    ensures var line, start := TagText(name, p, value, rest), |name| + 1 + |p| + |URI_MARK|;
      && StartsWith(line, TAG) && IndexOfChar(line, ':') == |name| && start + |value| < |line|
      && line[..|name|] == name && line[|name| + 1..start - |URI_MARK|] == p
      && line[start..start + |value|] == value && line[start + |value| + 1..] == rest
  {
    hide IndexOfChar;
    var line := TagText(name, p, value, rest);
    assert line == name + [':'] + (p + (Quoted(value) + rest));
    IndexOfCharAt(name, p + (Quoted(value) + rest), ':');
    assert TAG <= line;
  }

  lemma MarkIs(name: string, p: string, value: string, rest: string)
    requires TagName(name) && '"' !in value && MarkFirst(p)
    ensures var start := |name| + 1 + |p| + |URI_MARK|;
            UriAttribute(TagText(name, p, value, rest)) == Some((start, start + |value|))
  {
    hide IndexOf, IndexOfChar, MarkFirst;
    var line, i, tail := TagText(name, p, value, rest), |name| + 1 + |p|, value + ['"'] + rest;
    assert line == name + ":" + (p + URI_MARK + tail);
    forall j | 0 <= j < i ensures !(URI_MARK <= line[j..]) {
      if j <= |name| {
        MarkInName(name, p + URI_MARK + tail, j);
      } else {
        MarkInList(p, tail, j - |name| - 1);
        assert line[j..] == (p + URI_MARK + tail)[j - |name| - 1..];
      }
    }
    assert line[i..] == URI_MARK + tail;
    IndexOfIs(line, URI_MARK, i);
    assert line[i + |URI_MARK|..] == tail;
    IndexOfCharAt(value, rest, '"');
  }

  lemma MarkInList(p: string, tail: string, j: nat)
    requires MarkFirst(p) && j < |p|
    ensures !(URI_MARK <= (p + URI_MARK + tail)[j..])
  {
    assert (p + URI_MARK + tail)[j..] == (p + URI_MARK)[j..] + tail;
    SamePrefix((p + URI_MARK)[j..] + tail, (p + URI_MARK)[j..], |(p + URI_MARK)[j..]|, URI_MARK);
  }

  lemma QuoteFreeMarkFirst(p: string)
    requires '"' !in p
    ensures MarkFirst(p)
  {
    var s := p + URI_MARK;
    assert URI_MARK[4] == '"' && |URI_MARK| == 5;
    forall j | 0 <= j < |p| ensures !(URI_MARK <= s[j..]) {
      assert s[j..][4] == s[j + 4];
      assert j + 4 < |p| ==> s[j + 4] in p;
    }
  }

  lemma CommaPieces(y: string)
    requires '"' !in y
    ensures FirstUri(Pieces("," + Quoted(y))) == Some(y)
    ensures Pieces("," + Quoted(y))[0] == "" && PieceUri("") == None
  {
    hide PieceUri, Quoted;
    CutNothing();
    CutSnoc("", ',');
    assert "" + [','] == "," && [] + [""] == [""];
    CutSnoc("", ',');
    PiecesAround(",", y, "");
    EmptyMark();
    BlankPiece("", y, "");
    var pieces := Pieces("," + (Quoted(y) + ""));
    assert Quoted(y) + "" == Quoted(y);
    assert Pieces("")[0] == "" && Pieces("")[1..] == [];
    assert pieces == ["", "" + (Quoted(y) + "")];
    assert pieces[1..] == ["" + (Quoted(y) + "")];
  }

  lemma NothingCut()
    ensures MarkFirst("") && !OpenQuote("") && Blank(CutUp("").current)
  {
  }

  lemma EmptyMark()
    ensures PieceUri("") == None && Blank("")
  {
  }

  /** An earlier attribute whose name ends in URI, such as X-A-URI, is rewritten in place of the URI, which
      the player then still reads as it stood upstream. */
  lemma EarlierNameIsRewritten(c: Context, kind: Kind, name: string, other: string, x: string, y: string)
    requires TagName(name) && '"' !in other && ',' !in other && !Blank(other) && '"' !in x && '"' !in y
    requires InsertsCleanly(c, kind, TagText(name, other, x, "," + Quoted(y)))
    ensures var line := TagText(name, other, x, "," + Quoted(y));
            ChildOf(line) == Some(y) && ChildOf(RewriteTag(c, kind, line)) == Some(y)
  {
    hide CutUp, Quotes, MarkFirst, Blank, Pieces, PieceUri, ChildOf, TagText, PlaceOf, RewriteTag, Quoted;
    var line := TagText(name, other, x, "," + Quoted(y));
    QuoteFreeMarkFirst(other);
    PlaceIs(name, other, x, "," + Quoted(y));
    NoCommaNoQuote(other);
    CutNothing();
    CutText("", other);
    assert "" + other == other;
    ReadPlace(name, other, x, "," + Quoted(y));
    CommaPieces(y);
    TagStarts(name, other, x, "," + Quoted(y));
    RewrittenTagIs(c, kind, line);
  }

  lemma TagStarts(name: string, p: string, value: string, rest: string)
    requires TagName(name)
    ensures StartsWith(TagText(name, p, value, rest), "#")
  {
    assert TAG[0] == '#' && name[0] == TAG[0];
  }

  /** A direct URL with a quote in it, as in `https://a"b.tiktokcdn.com/k`, leaves the player the text ahead of
      the quote. */
  lemma QuotedHostIsCut(c: Context, kind: Kind, name: string, front: string, value: string, host: string,
                        more: string)
    requires TagName(name) && '"' !in front && ',' !in front && '"' !in value && '"' !in host
    requires Child(c, kind, value) == Some(host + ['"'] + more)
    ensures ChildOf(RewriteTag(c, kind, TagText(name, front + [','], value, ""))) == Some(host)
  {
    hide CutUp, Quotes, MarkFirst, ChildOf, TagText, PlaceOf, RewriteTag, Child;
    QuoteFreeMarkFirst(front + [',']);
    PlaceIs(name, front + [','], value, "");
    NoCommaNoQuote(front);
    CutNothing();
    CutText("", front);
    assert "" + front == front;
    CutSnoc(front, ',');
    IndexOfCharAt(host, more, '"');
    assert (host + ['"'] + more)[..|host|] == host;
    EmptyMark();
    ReachedExactly(c, kind, TagText(name, front + [','], value, ""));
  }

  /** A quoted value that ends in `URI=` is taken for a mark: the rewriter then writes over the text up to
      the next quote, the URI attribute's name, and the player finds no URI any more. */
  lemma QuotedUriIsLost(c: Context, kind: Kind, name: string, y: string, child: string)
    requires TagName(name) && '"' !in y && Child(c, kind, ",URI=") == Some(child) && '"' !in child && ',' !in child
    ensures var line := TagText(name, LABEL, ",URI=", y + "\"");
            ChildOf(line) == Some(y) && ChildOf(RewriteTag(c, kind, line)) == None
  {
    hide CutUp, Quotes, MarkFirst, Pieces, PieceUri, ChildOf, TagText, PlaceOf, RewriteTag, Quoted, Child;
    var line := TagText(name, LABEL, ",URI=", y + "\"");
    LabelFacts();
    assert '"' !in ",URI=";
    PlaceIs(name, LABEL, ",URI=", y + "\"");
    RewrittenPlace(c, kind, line);
    LabelBefore(name, y);
    LabelAfter(name, child, y);
  }

  const LABEL := "NAME=\""

  lemma NoUMarkFirst(p: string, mark: string)
    requires mark != "" && mark[0] !in p
    ensures forall j | 0 <= j < |p| :: !(mark <= (p + mark)[j..])
  {
    forall j | 0 <= j < |p| ensures !(mark <= (p + mark)[j..]) {
      assert (p + mark)[j..][0] == p[j] && p[j] in p;
    }
  }

  lemma LabelFacts()
    ensures MarkFirst(LABEL) && OneAttribute(LABEL) && OpenQuote(LABEL)
  {
    hide OneAttribute, Quotes;
    assert URI_MARK[0] == 'U' && 'U' !in LABEL;
    NoUMarkFirst(LABEL, URI_MARK);
    assert LABEL == "NAME=" + ['"'];
    assert ',' !in "NAME=" && '"' !in "NAME=";
    NoCommaNoQuote("NAME=");
    OneAttributeSnoc("NAME=", '"');
    CutSnoc("NAME=", '"');
  }

  /** `NAME="URI="`, a whole attribute. */
  lemma LabelIsOne()
    ensures OneAttribute(LABEL + URI_MARK) && !OpenQuote(LABEL + URI_MARK)
  {
    hide OneAttribute, Quotes;
    LabelFacts();
    assert LABEL + URI_MARK == LABEL + "URI=" + ['"'] && '"' !in "URI=";
    OpenValue(LABEL, "URI=");
    OneAttributeSnoc(LABEL + "URI=", '"');
    CutSnoc(LABEL + "URI=", '"');
  }

  lemma LabelHasOtherName(rest: string)
    ensures PieceUri(LABEL + rest) == None
  {
    assert (LABEL + rest)[0] == 'N' && URI_MARK[0] == 'U';
    assert TrimStart(LABEL + rest) == LABEL + rest;
  }

  lemma OnePiece(list: string)
    requires CutUp(list) == Cut([], list)
    ensures Pieces(list) == [list]
  {
    hide CutUp;
    assert [] + [list] == [list];
  }

  lemma OnePieceThen(p: string, tail: string)
    requires CutUp(p) == Cut([], p) && !OpenQuote(p)
    ensures Pieces(p + tail) == [p + Pieces(tail)[0]] + Pieces(tail)[1..]
  {
    hide CutUp, Quotes;
    CutConcat(p, tail);
    GluedPieces(CutUp(p), CutUp(tail));
    assert [] + [p + Pieces(tail)[0]] + Pieces(tail)[1..] == [p + Pieces(tail)[0]] + Pieces(tail)[1..];
  }

  lemma Around(front: string, mark: string, child: string, y: string, quote: string)
    ensures front + ((mark + child + quote) + (y + quote)) == front + mark + child + quote + y + quote
  {
  }

  lemma Shifted(front: string, mark: string, comma: string, value: string, y: string, quote: string)
    requires comma + mark == value + quote
    ensures front + mark + (comma + (mark + y + quote)) == front + ((mark + value + quote) + (y + quote))
  {
    assert front + mark + (comma + (mark + y + quote)) == front + mark + (comma + mark) + y + quote;
    assert front + ((mark + value + quote) + (y + quote)) == front + mark + (value + quote) + y + quote;
  }

  lemma LabelBefore(name: string, y: string)
    requires TagName(name) && '"' !in y
    ensures ChildOf(TagText(name, LABEL, ",URI=", y + "\"")) == Some(y)
  {
    hide CutUp, Quotes, OneAttribute, Pieces, PieceUri, ChildOf;
    var p := LABEL + URI_MARK;
    LabelIsOne();
    CutNothing();
    CutText("", p);
    assert "" + p == p;
    CommaPieces(y);
    var tail := "," + Quoted(y);
    assert "," + URI_MARK == ",URI=" + "\"";
    Shifted(LABEL, URI_MARK, ",", ",URI=", y, "\"");
    OnePieceThen(p, tail);
    assert p + Pieces(tail)[0] == LABEL + URI_MARK;
    LabelHasOtherName(URI_MARK);
    FirstUriConcat([p], Pieces(tail)[1..]);
    TagUriOf(name, p + tail);
  }

  lemma LabelAfter(name: string, child: string, y: string)
    requires TagName(name) && '"' !in y && '"' !in child && ',' !in child
    ensures ChildOf(TagText(name, LABEL, child, y + "\"")) == None
  {
    hide CutUp, Quotes, OneAttribute, Pieces, PieceUri, ChildOf;
    var list := LABEL + (Quoted(child) + (y + "\""));
    var p := LABEL + URI_MARK;
    LabelIsOne();
    StaysClosed(p, child);
    OneAttributeSnoc(p + child, '"');
    CutSnoc(p + child, '"');
    OpenValue(p + child + ['"'], y);
    OneAttributeSnoc(p + child + ['"'] + y, '"');
    assert "\"" == ['"'];
    Around(LABEL, URI_MARK, child, y, "\"");
    CutNothing();
    CutText("", list);
    assert "" + list == list;
    OnePiece(list);
    LabelHasOtherName(Quoted(child) + (y + "\""));
    assert [list][1..] == [];
    TagUriOf(name, list);
  }

  lemma {:induction false} StaysClosed(s: string, t: string)
    requires OneAttribute(s) && !OpenQuote(s) && ',' !in t && '"' !in t
    ensures OneAttribute(s + t) && !OpenQuote(s + t)
  {
    hide OneAttribute;
    if t == "" {
      assert s + t == s;
    } else {
      var front, ch := t[..|t| - 1], t[|t| - 1];
      assert s + t == s + front + [ch] && ch in t && forall x | x in front :: x in t;
      StaysClosed(s, front);
      OneAttributeSnoc(s + front, ch);
      CutSnoc(s + front, ch);
    }
  }
}
