/** The quality cap of src/live.rs on master playlists: `cap_external_embed_master_to_1080p` drops
    variants taller than 1080 lines. */
module HlsCap {
  import opened Text
  import opened Decimal
  import opened HlsLines

  // ---------------------------------------------------------------------------
  // Height of a variant
  // ---------------------------------------------------------------------------

  const U32_MAX := 0xffff_ffff
  const RESOLUTION := "RESOLUTION="
  const MAX_HEIGHT := 1080

  predicate EndsValue(c: char) { c == ',' || c == ' ' || c == '\t' }

  /** Text up to the first separator. */
  function FirstField(s: string): (r: string)
    ensures r <= s && (forall c | c in r :: !EndsValue(c)) && (|r| < |s| ==> EndsValue(s[|r|]))
  {
    if s == "" || EndsValue(s[0]) then "" else [s[0]] + FirstField(s[1..])
  }

  /** `stream_inf_resolution_height` */
  function HeightOf(line: string): Option<int> {
    var upper := ToUpper(line);
    var i := IndexOf(upper, RESOLUTION);
    if i + |RESOLUTION| > |upper| then None
    else
      var value := FirstField(upper[i + |RESOLUTION|..]);
      var x := IndexOfChar(value, 'X');
      if x == |value| then None else ParseInt(Trim(value[x + 1..]), 0, U32_MAX)
  }

  predicate TooTall(line: string) { HeightOf(line).Some? && HeightOf(line).value > MAX_HEIGHT }

  lemma UpperConcat(a: string, b: string)
    ensures ToUpper(a + b) == ToUpper(a) + ToUpper(b)
  {
  }

  lemma UpperDigits(s: string)
    requires AllDigits(s)
    ensures ToUpper(s) == s
  {
    assert forall i | 0 <= i < |s| :: s[i] in s;
  }

  lemma {:induction false} FirstFieldOf(s: string, rest: string)
    requires (forall c | c in s :: !EndsValue(c)) && (rest == "" || EndsValue(rest[0]))
    ensures FirstField(s + rest) == s
  {
    if s == "" {
      assert s + rest == rest;
    } else {
      assert s[0] in s && (s + rest)[1..] == s[1..] + rest;
      FirstFieldOf(s[1..], rest);
    }
  }

  /** The height of WIDTHxHEIGHT is the number that was printed there, whatever follows. */
  lemma HeightIsRead(before: string, width: string, x: char, height: nat, rest: string)
    requires AllDigits(width) && (x == 'x' || x == 'X') && height <= U32_MAX && (rest == "" || EndsValue(rest[0]))
    requires var line := before + RESOLUTION + (width + [x] + NatToString(height)) + rest;
             IndexOf(ToUpper(line), RESOLUTION) == |before|
    ensures HeightOf(before + RESOLUTION + (width + [x] + NatToString(height)) + rest) == Some(height)
  {
    hide NatToString, ParseInt, IndexOf, ToUpper, FirstField, IndexOfChar;
    var digits := NatToString(height);
    var size := width + [x] + digits;
    var line := before + RESOLUTION + size + rest;
    UpperSize(width, x, digits);
    UpperConcat(before + RESOLUTION + size, rest);
    UpperConcat(before + RESOLUTION, size);
    UpperAt(line, before + RESOLUTION, width + ['X'] + digits, ToUpper(rest));
    UpperRest(rest);
    SizeIsSplit(width, digits, ToUpper(rest));
    DigitsAreTrimmed(digits);
    ParsePrinted(height, 0, U32_MAX);
    assert IntToString(height) == digits;
  }

  lemma UpperSize(width: string, x: char, digits: string)
    requires AllDigits(width) && (x == 'x' || x == 'X') && AllDigits(digits)
    ensures ToUpper(width + [x] + digits) == width + ['X'] + digits
  {
    UpperConcat(width + [x], digits);
    UpperConcat(width, [x]);
    UpperDigits(width);
    UpperDigits(digits);
    assert ToUpper([x]) == ['X'];
  }

  lemma UpperAt(line: string, front: string, value: string, tail: string)
    requires ToUpper(line) == ToUpper(front) + value + tail
    ensures |front| <= |line| && ToUpper(line)[|front|..] == value + tail
  {
    assert |ToUpper(front)| == |front| && |ToUpper(line)| == |line|;
  }

  lemma UpperRest(rest: string)
    requires rest == "" || EndsValue(rest[0])
    ensures ToUpper(rest) == "" || EndsValue(ToUpper(rest)[0])
  {
  }

  lemma SizeIsSplit(width: string, digits: string, tail: string)
    requires AllDigits(width) && AllDigits(digits) && (tail == "" || EndsValue(tail[0]))
    ensures var value := width + ['X'] + digits;
      && FirstField(value + tail) == value && IndexOfChar(value, 'X') == |width| && value[|width| + 1..] == digits
  {
    var value := width + ['X'] + digits;
    assert forall c | c in value :: IsAsciiDigit(c) || c == 'X';
    FirstFieldOf(value, tail);
    assert 'X' !in width;
    IndexOfCharAt(width, digits, 'X');
  }

  lemma DigitsAreTrimmed(digits: string)
    requires digits != "" && AllDigits(digits)
    ensures Trim(digits) == digits
  {
    assert digits[0] in digits && digits[|digits| - 1] in digits;
    TrimmedIsFixed(digits);
  }

  // ---------------------------------------------------------------------------
  // The cap
  // ---------------------------------------------------------------------------

  const I_FRAME := "#EXT-X-I-FRAME-STREAM-INF"

  predicate IsIFrame(line: string) { StartsWith(TrimStart(line), I_FRAME) }

  /** A line that is neither blank nor a tag nor a comment. */
  predicate IsUri(line: string) { TrimStart(line) != "" && !StartsWith(TrimStart(line), "#") }

  predicate Fits(line: string) { IsStreamInf(line) && !TooTall(line) }

  /** Line `k` follows a variant that is too tall, with at most I-frame tags between. */
  ghost predicate FollowsDropped(lines: seq<string>, k: nat)
    requires k <= |lines|
  {
    exists i :: 0 <= i < k && IsStreamInf(lines[i]) && TooTall(lines[i]) && AllIFrames(lines, i + 1, k)
  }

  predicate AllIFrames(lines: seq<string>, lo: nat, hi: nat)
    requires hi <= |lines|
  {
    forall j | lo <= j < hi :: IsIFrame(lines[j]) && !IsStreamInf(lines[j])
  }

  /** The lines that stay, each judged by itself and by what it follows. */
  ghost predicate Stays(lines: seq<string>, k: nat)
    requires k < |lines|
  {
    if IsStreamInf(lines[k]) || IsIFrame(lines[k]) then !TooTall(lines[k])
    else !(IsUri(lines[k]) && FollowsDropped(lines, k))
  }

  ghost function Staying(lines: seq<string>, n: nat): seq<string>
    requires n <= |lines|
  {
    if n == 0 then [] else Staying(lines, n - 1) + if Stays(lines, n - 1) then [lines[n - 1]] else []
  }

  predicate AnyFits(lines: seq<string>) { exists line | line in lines :: Fits(line) }

  ghost function Capped(lines: seq<string>): seq<string> {
    if AnyFits(lines) then Staying(lines, |lines|) else lines
  }

  /** Line `k` is in the capped playlist: the cap drops nothing when no variant fits. */
  ghost predicate Keeps(lines: seq<string>, k: nat)
    requires k < |lines|
  {
    !AnyFits(lines) || Stays(lines, k)
  }

  /** The lines up to `n` that are kept, in order. */
  ghost function Keeping(lines: seq<string>, n: nat): seq<string>
    requires n <= |lines|
  {
    if n == 0 then [] else Keeping(lines, n - 1) + if Keeps(lines, n - 1) then [lines[n - 1]] else []
  }

  lemma {:induction false} KeepingIsCapped(lines: seq<string>, n: nat)
    requires n <= |lines|
    ensures Keeping(lines, n) == if AnyFits(lines) then Staying(lines, n) else lines[..n]
  {
    hide AnyFits, Stays;
    if n > 0 {
      KeepingIsCapped(lines, n - 1);
      assert lines[..n] == lines[..n - 1] + [lines[n - 1]];
    }
  }

  /** The capped playlist is those lines. */
  lemma CappedKeeps(lines: seq<string>)
    ensures Capped(lines) == Keeping(lines, |lines|)
  {
    hide AnyFits, Staying, Keeping;
    KeepingIsCapped(lines, |lines|);
    assert lines[..|lines|] == lines;
  }

  lemma FollowsStep(lines: seq<string>, k: nat)
    requires k < |lines|
    ensures FollowsDropped(lines, k + 1)
       <==> if IsStreamInf(lines[k]) then TooTall(lines[k]) else IsIFrame(lines[k]) && FollowsDropped(lines, k)
  {
    hide IsStreamInf, IsIFrame, TooTall;
    if IsStreamInf(lines[k]) {
      if TooTall(lines[k]) { assert AllIFrames(lines, k + 1, k + 1); }
      if i :| 0 <= i < k + 1 && IsStreamInf(lines[i]) && TooTall(lines[i]) && AllIFrames(lines, i + 1, k + 1) {
        assert i == k;
      }
    } else {
      if FollowsDropped(lines, k) && IsIFrame(lines[k]) {
        var i :| 0 <= i < k && IsStreamInf(lines[i]) && TooTall(lines[i]) && AllIFrames(lines, i + 1, k);
        assert AllIFrames(lines, i + 1, k + 1);
      }
      if i :| 0 <= i < k + 1 && IsStreamInf(lines[i]) && TooTall(lines[i]) && AllIFrames(lines, i + 1, k + 1) {
        assert AllIFrames(lines, i + 1, k);
      }
    }
  }

  lemma NothingFollows(lines: seq<string>)
    ensures !FollowsDropped(lines, 0)
  {
  }

  /** `cap_external_embed_master_to_1080p` */
  method CapTo1080p(lines: seq<string>) returns (out: seq<string>)
    ensures out == Capped(lines)
  {
    hide FollowsDropped, TooTall, TrimStart, AnyFits;
    if !AnyFits(lines) {
      return lines;
    }
    out := [];
    NothingFollows(lines);
    var dropNextUri := false;
    for i := 0 to |lines|
      invariant out == Staying(lines, i)
      invariant dropNextUri <==> FollowsDropped(lines, i)
    {
      var line := lines[i];
      var trimmed := TrimStart(line);
      FollowsStep(lines, i);
      if StartsWith(trimmed, STREAM_INF) {
        if TooTall(line) {
          dropNextUri := true;
          continue;
        }
        dropNextUri := false;
        out := out + [line];
        continue;
      }
      if StartsWith(trimmed, I_FRAME) {
        if TooTall(line) {
          continue;
        }
        out := out + [line];
        continue;
      }
      if dropNextUri {
        dropNextUri := false;
        if trimmed != "" && !StartsWith(trimmed, "#") {
          continue;
        }
      }
      out := out + [line];
    }
  }

  // ---------------------------------------------------------------------------
  // On every input
  // ---------------------------------------------------------------------------

  lemma {:induction false} StayingLines(lines: seq<string>, n: nat, line: string)
    requires n <= |lines|
    ensures line in Staying(lines, n) <==> exists k :: 0 <= k < n && Stays(lines, k) && lines[k] == line
  {
    hide Stays;
    if n > 0 {
      StayingLines(lines, n - 1, line);
    }
  }

  lemma {:induction false} AllStay(lines: seq<string>, n: nat)
    requires n <= |lines|
    ensures (forall k | 0 <= k < n :: Stays(lines, k)) <==> Staying(lines, n) == lines[..n]
    ensures |Staying(lines, n)| <= n
  {
    hide Stays;
    if n > 0 {
      AllStay(lines, n - 1);
      assert lines[..n] == lines[..n - 1] + [lines[n - 1]];
      if Staying(lines, n) == lines[..n] { assert Stays(lines, n - 1); }
    }
  }

  predicate Tall(line: string) { (IsStreamInf(line) || IsIFrame(line)) && TooTall(line) }

  lemma NothingTallStays(lines: seq<string>)
    ensures AnyFits(lines) ==> forall line | line in Capped(lines) :: !Tall(line)
    ensures AnyFits(lines) ==> AnyFits(Capped(lines))
  {
    hide IsStreamInf, IsIFrame, TooTall;
    if AnyFits(lines) {
      forall line | line in Capped(lines) ensures !Tall(line) {
        StayingLines(lines, |lines|, line);
      }
      var line :| line in lines && Fits(line);
      var k :| 0 <= k < |lines| && lines[k] == line;
      assert Stays(lines, k);
      StayingLines(lines, |lines|, line);
    }
  }

  /** The cap leaves a playlist as it is exactly when nothing in it is too tall, or no variant fits. */
  lemma UnchangedExactly(lines: seq<string>)
    ensures Capped(lines) == lines <==> (!AnyFits(lines) || forall line | line in lines :: !Tall(line))
  {
    hide IsStreamInf, IsIFrame, TooTall;
    AllStay(lines, |lines|);
    assert lines[..|lines|] == lines;
    if AnyFits(lines) && forall line | line in lines :: !Tall(line) {
      forall k | 0 <= k < |lines| ensures Stays(lines, k) {
        assert lines[k] in lines;
        assert forall i | 0 <= i < k :: lines[i] in lines;
      }
    }
    if AnyFits(lines) && Capped(lines) == lines {
      NothingTallStays(lines);
    }
  }

  /** Capping twice is capping once. */
  lemma CapIsIdempotent(lines: seq<string>)
    ensures Capped(Capped(lines)) == Capped(lines)
  {
    hide Staying, Tall, Fits;
    NothingTallStays(lines);
    UnchangedExactly(Capped(lines));
  }

  /** A ladder is never emptied: a playlist with variants keeps one, and if any fits, exactly the
      fitting ones. */
  lemma VariantsKept(lines: seq<string>, tag: string)
    requires IsStreamInf(tag)
    ensures tag in Capped(lines) <==> tag in lines && (!TooTall(tag) || !AnyFits(lines))
  {
    hide IsStreamInf, IsIFrame, TooTall;
    if AnyFits(lines) {
      StayingLines(lines, |lines|, tag);
      if tag in lines && !TooTall(tag) {
        var k :| 0 <= k < |lines| && lines[k] == tag;
        assert Stays(lines, k);
      }
    }
  }

  /** Of a variant that prints its size, told by the height it prints: it stays exactly if that is at most 1080,
      or if no variant of the playlist fits. */
  lemma SizedVariantStays(lines: seq<string>, before: string, width: string, x: char, height: nat, rest: string)
    requires AllDigits(width) && (x == 'x' || x == 'X') && height <= 0xffff_ffff && (rest == "" || EndsValue(rest[0]))
    requires var tag := before + "RESOLUTION=" + (width + [x] + NatToString(height)) + rest;
             StartsWith(TrimStart(tag), "#EXT-X-STREAM-INF") && IndexOf(ToUpper(tag), "RESOLUTION=") == |before|
    ensures var tag := before + "RESOLUTION=" + (width + [x] + NatToString(height)) + rest;
            tag in Capped(lines) <==> tag in lines && (height <= 1080 || !exists line | line in lines :: Fits(line))
  {
    hide NatToString, IndexOf, ToUpper, TrimStart, Capped, HeightOf, Fits;
    HeightIsRead(before, width, x, height, rest);
    VariantsKept(lines, before + "RESOLUTION=" + (width + [x] + NatToString(height)) + rest);
  }

  // ---------------------------------------------------------------------------
  // Tags and their URIs
  // ---------------------------------------------------------------------------

  /** A player takes line `k` for the URI of the variant on line `i`: the next URI, with no other
      variant between. */
  predicate Owns(lines: seq<string>, i: nat, k: nat)
    requires k < |lines|
  {
    i < k && IsStreamInf(lines[i]) && IsUri(lines[k]) && NeitherBetween(lines, i + 1, k)
  }

  predicate NeitherBetween(lines: seq<string>, lo: nat, hi: nat)
    requires hi <= |lines|
  {
    forall j | lo <= j < hi :: !IsStreamInf(lines[j]) && !IsUri(lines[j])
  }

  /** Something other than I-frame tags stands between the variant and its URI. */
  predicate Apart(lines: seq<string>, i: nat, k: nat)
    requires k < |lines|
  {
    exists j :: i < j < k && !IsIFrame(lines[j])
  }

  lemma UriIsNoTag(line: string)
    ensures IsUri(line) ==> !IsStreamInf(line) && !IsIFrame(line)
  {
    assert STREAM_INF[0] == '#' && I_FRAME[0] == '#';
  }

  lemma OwnerDecides(lines: seq<string>, i: nat, k: nat)
    requires k < |lines| && Owns(lines, i, k)
    ensures FollowsDropped(lines, k) <==> TooTall(lines[i]) && !Apart(lines, i, k)
  {
    hide IsStreamInf, IsIFrame, IsUri, TooTall;
    if TooTall(lines[i]) && !Apart(lines, i, k) {
      assert AllIFrames(lines, i + 1, k);
    }
    if h :| 0 <= h < k && IsStreamInf(lines[h]) && TooTall(lines[h]) && AllIFrames(lines, h + 1, k) {
      assert h <= i && i <= h;
    }
  }

  lemma StaysByOwner(lines: seq<string>, i: nat, k: nat)
    requires k < |lines| && Owns(lines, i, k)
    ensures Stays(lines, i) <==> !TooTall(lines[i])
    ensures Stays(lines, k) <==> !TooTall(lines[i]) || Apart(lines, i, k)
  {
    hide IsStreamInf, IsIFrame, IsUri, TooTall, FollowsDropped;
    UriIsNoTag(lines[k]);
    OwnerDecides(lines, i, k);
  }

  /** A variant is in the capped playlist exactly when it fits or none does; its URI moreover when anything
      but I-frame tags stands between the two. */
  lemma PairStaysTogetherExactly(lines: seq<string>, i: nat, k: nat)
    requires k < |lines| && Owns(lines, i, k)
    ensures Keeps(lines, i) <==> !AnyFits(lines) || !TooTall(lines[i])
    ensures Keeps(lines, k) <==> !AnyFits(lines) || !TooTall(lines[i]) || Apart(lines, i, k)
  {
    hide AnyFits, Stays, Owns, TooTall, Apart;
    StaysByOwner(lines, i, k);
  }

  ghost predicate PairsStayTogether(lines: seq<string>) {
    forall i, k | 0 <= k < |lines| && 0 <= i < |lines| && Owns(lines, i, k) :: Keeps(lines, i) <==> Keeps(lines, k)
  }

  /** Up to line `n` the URI of a tall variant stands apart from it. */
  ghost predicate TallApart(lines: seq<string>, n: nat)
    requires n <= |lines|
  {
    exists i, k :: 0 <= i < k < n && Owns(lines, i, k) && TooTall(lines[i]) && Apart(lines, i, k)
  }

  /** Variants and their URIs stay or go together exactly when no variant fits or no tall one stands
      apart from its URI. */
  lemma PairsStayTogetherExactly(lines: seq<string>)
    ensures PairsStayTogether(lines) <==> !AnyFits(lines) || !TallApart(lines, |lines|)
  {
    hide Keeps, TooTall, Apart, AnyFits;
    forall i: nat, k: nat | k < |lines| && i < |lines| && Owns(lines, i, k)
      ensures (Keeps(lines, i) <==> !AnyFits(lines) || !TooTall(lines[i]))
              && (Keeps(lines, k) <==> !AnyFits(lines) || !TooTall(lines[i]) || Apart(lines, i, k))
    {
      PairStaysTogetherExactly(lines, i, k);
    }
  }

  // ---------------------------------------------------------------------------
  // The ladder a player reads
  // ---------------------------------------------------------------------------

  /** Variants with their URIs, a variant still waiting for one, and URIs without a variant. */
  datatype Ladder = Ladder(variants: seq<(string, string)>, pending: Option<string>, orphans: seq<string>)

  const NO_LADDER := Ladder([], None, [])

  function LadderLine(l: Ladder, line: string): Ladder {
    if IsStreamInf(line) then l.(pending := Some(line))
    else if IsUri(line) then
      match l.pending
      case Some(tag) => l.(variants := l.variants + [(tag, line)], pending := None)
      case None => l.(orphans := l.orphans + [line])
    else l
  }

  function ReadLadder(lines: seq<string>): Ladder {
    if lines == [] then NO_LADDER else LadderLine(ReadLadder(lines[..|lines| - 1]), lines[|lines| - 1])
  }

  function FittingVariants(variants: seq<(string, string)>): seq<(string, string)> {
    if variants == [] then []
    else
      var last := variants[|variants| - 1];
      FittingVariants(variants[..|variants| - 1]) + if TooTall(last.0) then [] else [last]
  }

  function FittingPending(pending: Option<string>): Option<string> {
    if pending.Some? && TooTall(pending.value) then None else pending
  }

  /** Every variant has its URI. */
  ghost predicate Complete(lines: seq<string>) {
    forall i | 0 <= i < |lines| && IsStreamInf(lines[i]) :: exists k :: 0 <= k < |lines| && Owns(lines, i, k)
  }

  /** The variant that waits before line `n` stands on line `i`. */
  predicate WaitsAt(lines: seq<string>, n: nat, i: nat)
    requires n <= |lines|
  {
    i < n && IsStreamInf(lines[i]) && NeitherBetween(lines, i + 1, n)
  }

  lemma {:induction false} PendingStands(lines: seq<string>, n: nat) returns (i: nat)
    requires n <= |lines|
    ensures ReadLadder(lines[..n]).pending.Some? ==>
              WaitsAt(lines, n, i) && ReadLadder(lines[..n]).pending == Some(lines[i])
    ensures forall h: nat | WaitsAt(lines, n, h) :: ReadLadder(lines[..n]).pending.Some? && h == i
  {
    hide IsStreamInf, IsUri;
    i := 0;
    if n > 0 {
      UriIsNoTag(lines[n - 1]);
      i := PendingStands(lines, n - 1);
      assert lines[..n][..n - 1] == lines[..n - 1];
      if IsStreamInf(lines[n - 1]) { i := n - 1; }
      forall h: nat | WaitsAt(lines, n, h) ensures ReadLadder(lines[..n]).pending.Some? && h == i {
        if h < n - 1 { assert WaitsAt(lines, n - 1, h); }
      }
    }
  }

  lemma FittingSnoc(variants: seq<(string, string)>, v: (string, string))
    ensures FittingVariants(variants + [v]) == FittingVariants(variants) + if TooTall(v.0) then [] else [v]
  {
    assert (variants + [v])[..|variants|] == variants;
  }

  lemma ReadSnoc(lines: seq<string>, line: string)
    ensures ReadLadder(lines + [line]) == LadderLine(ReadLadder(lines), line)
  {
    assert (lines + [line])[..|lines|] == lines;
  }

  lemma FollowedWaits(lines: seq<string>, n: nat)
    requires n < |lines| && FollowsDropped(lines, n)
    ensures exists i: nat :: WaitsAt(lines, n, i) && TooTall(lines[i])
  {
    hide TooTall;
    var i :| 0 <= i < n && IsStreamInf(lines[i]) && TooTall(lines[i]) && AllIFrames(lines, i + 1, n);
    forall j | i + 1 <= j < n ensures !IsUri(lines[j]) { UriIsNoTag(lines[j]); }
    assert WaitsAt(lines, n, i);
  }

  /** A waiting variant gets the next URI, and gets it before the next variant. */
  lemma WaitingVariantOwns(lines: seq<string>, n: nat, i: nat)
    requires n < |lines| && Complete(lines) && WaitsAt(lines, n, i) && (IsStreamInf(lines[n]) || IsUri(lines[n]))
    ensures IsUri(lines[n]) && Owns(lines, i, n)
  {
    hide IsStreamInf, IsUri;
    var k :| 0 <= k < |lines| && Owns(lines, i, k);
    UriIsNoTag(lines[k]);
    assert k == n;
  }

  lemma NoneWaitsAtVariant(lines: seq<string>, n: nat)
    requires n < |lines| && Complete(lines) && IsStreamInf(lines[n])
    ensures ReadLadder(lines[..n]).pending == None
  {
    hide IsStreamInf, IsUri, TooTall, ReadLadder, Complete, WaitsAt;
    var i := PendingStands(lines, n);
    UriIsNoTag(lines[n]);
    if ReadLadder(lines[..n]).pending.Some? {
      WaitingVariantOwns(lines, n, i);
    }
  }

  /** The URI on line `n` goes exactly when it belongs to a tall variant and does not stand apart from it. */
  lemma UriGoesWithVariant(lines: seq<string>, n: nat) returns (i: nat)
    requires n < |lines| && Complete(lines) && IsUri(lines[n])
    ensures ReadLadder(lines[..n]).pending.Some? ==>
              i < n && Owns(lines, i, n) && ReadLadder(lines[..n]).pending == Some(lines[i])
              && (Stays(lines, n) <==> !TooTall(lines[i]) || Apart(lines, i, n))
    ensures ReadLadder(lines[..n]).pending.None? ==> Stays(lines, n)
    ensures forall h: nat | h < n && Owns(lines, h, n) :: ReadLadder(lines[..n]).pending.Some? && h == i
  {
    hide IsStreamInf, IsUri, IsIFrame, TooTall, ReadLadder, Apart, FollowsDropped, Complete, WaitsAt;
    UriIsNoTag(lines[n]);
    i := PendingStands(lines, n);
    if FollowsDropped(lines, n) { FollowedWaits(lines, n); }
    if ReadLadder(lines[..n]).pending.Some? {
      WaitingVariantOwns(lines, n, i);
      StaysByOwner(lines, i, n);
    }
    forall h: nat | h < n && Owns(lines, h, n) ensures WaitsAt(lines, n, h) { OwnerWaits(lines, h, n); }
  }

  lemma OwnerWaits(lines: seq<string>, i: nat, k: nat)
    requires k < |lines| && Owns(lines, i, k)
    ensures WaitsAt(lines, k, i)
  {
  }

  /** What reading up to line `n` gives with and without the cap: the fitting variants, and more orphaned
      URIs exactly when a tall variant stood apart. */
  ghost predicate Fitted(lines: seq<string>, n: nat)
    requires n <= |lines|
  {
    var capped, before := ReadLadder(Staying(lines, n)), ReadLadder(lines[..n]);
    && capped.variants == FittingVariants(before.variants) && capped.pending == FittingPending(before.pending)
    && (if TallApart(lines, n) then |capped.orphans| > |before.orphans| else capped.orphans == before.orphans)
  }

  lemma ApartSnoc(lines: seq<string>, n: nat)
    requires n < |lines|
    ensures TallApart(lines, n) ==> TallApart(lines, n + 1)
    ensures !IsUri(lines[n]) ==> (TallApart(lines, n + 1) <==> TallApart(lines, n))
  {
    hide IsUri, TooTall, Apart, IsStreamInf;
  }

  lemma LadderStep(lines: seq<string>, n: nat)
    requires n < |lines| && Complete(lines) && Fitted(lines, n) && !IsUri(lines[n])
    ensures Fitted(lines, n + 1)
  {
    hide IsStreamInf, IsUri, IsIFrame, TooTall, ReadLadder, Complete, FollowsDropped, TallApart, FittingVariants;
    var line := lines[n];
    assert lines[..n + 1] == lines[..n] + [line];
    ReadSnoc(lines[..n], line);
    ReadSnoc(Staying(lines, n), line);
    assert Staying(lines, n) + [] == Staying(lines, n);
    ApartSnoc(lines, n);
    if IsStreamInf(line) { NoneWaitsAtVariant(lines, n); }
  }

  lemma ApartAtUri(lines: seq<string>, n: nat, i: nat, waits: bool)
    requires n < |lines| && (waits ==> i < n && Owns(lines, i, n))
    requires forall h: nat | h < n && Owns(lines, h, n) :: waits && h == i
    ensures TallApart(lines, n + 1)
       <==> TallApart(lines, n) || (waits && TooTall(lines[i]) && Apart(lines, i, n))
  {
    hide Owns, TooTall, Apart;
  }

  lemma UriStep(lines: seq<string>, n: nat)
    requires n < |lines| && Complete(lines) && Fitted(lines, n) && IsUri(lines[n])
    ensures Fitted(lines, n + 1)
  {
    hide IsStreamInf, IsUri, Owns, TooTall, Apart, Stays, ReadLadder, Complete, TallApart, FittingVariants;
    var line, before := lines[n], ReadLadder(lines[..n]);
    assert lines[..n + 1] == lines[..n] + [line];
    ReadSnoc(lines[..n], line);
    ReadSnoc(Staying(lines, n), line);
    assert Staying(lines, n) + [] == Staying(lines, n);
    UriIsNoTag(line);
    var i := UriGoesWithVariant(lines, n);
    ApartAtUri(lines, n, i, before.pending.Some?);
    if before.pending.Some? { FittingSnoc(before.variants, (before.pending.value, line)); }
    assert FittingVariants(before.variants) + [] == FittingVariants(before.variants);
  }

  lemma NothingFitted(lines: seq<string>)
    ensures Fitted(lines, 0)
  {
    hide IsStreamInf, IsUri, Owns, TooTall, Apart, Stays;
    assert lines[..0] == [];
  }

  lemma {:induction false} FittedUpTo(lines: seq<string>, n: nat)
    requires n <= |lines| && Complete(lines)
    ensures Fitted(lines, n)
  {
    hide Fitted, Complete, IsUri;
    if n == 0 {
      NothingFitted(lines);
    } else {
      FittedUpTo(lines, n - 1);
      if IsUri(lines[n - 1]) { UriStep(lines, n - 1); } else { LadderStep(lines, n - 1); }
    }
  }

  /** When every variant has its URI and some variant fits, a player reads from the capped playlist exactly
      the variants that fit, in order and with their own URIs. */
  lemma CapFiltersLadder(lines: seq<string>)
    requires Complete(lines) && AnyFits(lines)
    ensures ReadLadder(Capped(lines)).variants == FittingVariants(ReadLadder(lines).variants)
  {
    FittedUpTo(lines, |lines|);
    assert lines[..|lines|] == lines;
  }

  /** And the cap orphans no URI exactly when it has nothing to drop because no variant fits, or no tall
      variant stands apart from its URI. */
  lemma NoOrphansExactly(lines: seq<string>)
    requires Complete(lines)
    ensures ReadLadder(Capped(lines)).orphans == ReadLadder(lines).orphans
       <==> !AnyFits(lines) || !TallApart(lines, |lines|)
  {
    hide AnyFits, TallApart, Complete, ReadLadder;
    FittedUpTo(lines, |lines|);
    assert lines[..|lines|] == lines;
  }

  lemma OwnedIsNext(lines: seq<string>, i: nat, k: nat)
    requires i + 1 < |lines| && k < |lines| && IsUri(lines[i + 1]) && Owns(lines, i, k)
    ensures k == i + 1
  {
    hide IsUri, IsStreamInf;
  }

  /** In particular when each variant is immediately followed by its URI. */
  lemma AdjacentIsComplete(lines: seq<string>)
    requires forall i | 0 <= i < |lines| && IsStreamInf(lines[i]) :: i + 1 < |lines| && IsUri(lines[i + 1])
    ensures Complete(lines) && !TallApart(lines, |lines|)
  {
    hide IsStreamInf, IsIFrame, IsUri, TooTall;
    forall i | 0 <= i < |lines| && IsStreamInf(lines[i]) ensures i + 1 < |lines| && Owns(lines, i, i + 1) {
      assert NeitherBetween(lines, i + 1, i + 1);
    }
    forall i, k | 0 <= i < k < |lines| && Owns(lines, i, k) ensures k == i + 1 {
      OwnedIsNext(lines, i, k);
    }
  }

  /** With a comment between a tall variant and its URI the player is left with an orphaned URI. */
  lemma CommentOrphansUri(tall: string, comment: string, uri: string, low: string, lowUri: string)
    requires IsStreamInf(tall) && TooTall(tall) && IsStreamInf(low) && !TooTall(low)
    requires IsUri(uri) && IsUri(lowUri) && !IsUri(comment) && !IsStreamInf(comment) && !IsIFrame(comment)
    ensures ReadLadder([tall, comment, uri, low, lowUri]).orphans == []
    ensures Capped([tall, comment, uri, low, lowUri]) == [comment, uri, low, lowUri]
    ensures ReadLadder([comment, uri, low, lowUri]).orphans == [uri]
  {
    hide IsStreamInf, IsUri, IsIFrame, TooTall, ReadLadder;
    var lines := [tall, comment, uri, low, lowUri];
    UriIsNoTag(uri); UriIsNoTag(lowUri); UriIsNoTag(low); UriIsNoTag(tall);
    assert Fits(low) && lines[3] == low;
    FollowsStep(lines, 0); FollowsStep(lines, 1); FollowsStep(lines, 2); FollowsStep(lines, 3);
    assert Stays(lines, 1) && !Stays(lines, 0) && Stays(lines, 2) && Stays(lines, 3) && Stays(lines, 4);
    assert Staying(lines, 1) == [] && Staying(lines, 2) == [comment] && Staying(lines, 3) == [comment, uri]
        && Staying(lines, 4) == [comment, uri, low] && Staying(lines, 5) == [comment, uri, low, lowUri];
    assert ReadLadder([]) == NO_LADDER by { EmptyLadder(); }
    ReadSnoc([], tall); ReadSnoc([tall], comment); ReadSnoc([tall, comment], uri);
    ReadSnoc([tall, comment, uri], low); ReadSnoc([tall, comment, uri, low], lowUri);
    ReadSnoc([], comment); ReadSnoc([comment], uri); ReadSnoc([comment, uri], low);
    ReadSnoc([comment, uri, low], lowUri);
    assert [] + [tall] == [tall] && [] + [comment] == [comment];
    assert [tall] + [comment] == [tall, comment] && [comment] + [uri] == [comment, uri];
    assert [tall, comment] + [uri] == [tall, comment, uri] && [comment, uri] + [low] == [comment, uri, low];
    assert [tall, comment, uri] + [low] == [tall, comment, uri, low]
        && [comment, uri, low] + [lowUri] == [comment, uri, low, lowUri];
    assert [tall, comment, uri, low] + [lowUri] == lines;
  }

  lemma EmptyLadder()
    ensures ReadLadder([]) == NO_LADDER
  {
  }
}
