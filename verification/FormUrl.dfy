/** `application/x-www-form-urlencoded`: sections 5.1 and 5.2 of the WHATWG URL Standard, as the
    `form_urlencoded` crate implements them. */
module FormUrl {
  import opened Text
  import Utf8

  type Pairs = seq<(string, string)>

  predicate Unreserved(c: char) {
    '0' <= c <= '9' || 'A' <= c <= 'Z' || 'a' <= c <= 'z' || c == '*' || c == '-' || c == '.' || c == '_'
  }

  function HexDigit(v: nat): (c: char)
    requires v < 16
    ensures HexValue(c) == Some(v)
  {
    if v < 10 then ('0' as int + v) as char else ('A' as int + v - 10) as char
  }

  function HexValue(c: char): (r: Option<nat>)
    ensures r.Some? ==> r.value < 16
  {
    if '0' <= c <= '9' then Some(c as int - '0' as int)
    else if 'A' <= c <= 'F' then Some(c as int - 'A' as int + 10)
    else if 'a' <= c <= 'f' then Some(c as int - 'a' as int + 10)
    else None
  }

  function SerializeByte(b: Utf8.byte): string {
    if b < 0x80 && Unreserved(b as char) then [b as char]
    else if b == 0x20 then "+"
    else ['%', HexDigit(b / 16), HexDigit(b % 16)]
  }

  /** `byte_serialize` */
  function SerializeBytes(b: seq<Utf8.byte>): string {
    if b == [] then "" else SerializeByte(b[0]) + SerializeBytes(b[1..])
  }

  function EncodeValue(s: string): string { SerializeBytes(Utf8.Encode(s)) }

  function SerializePair(p: (string, string)): string {
    EncodeValue(p.0) + "=" + EncodeValue(p.1)
  }

  function Serialize(pairs: Pairs): string {
    if pairs == [] then ""
    else if |pairs| == 1 then SerializePair(pairs[0])
    else SerializePair(pairs[0]) + "&" + Serialize(pairs[1..])
  }

  /** Plus signs are spaces; `%` counts only in front of two hex digits. */
  function PercentDecode(s: string): seq<Utf8.byte> {
    if s == "" then []
    else if s[0] == '+' then [0x20] + PercentDecode(s[1..])
    else if s[0] == '%' && |s| >= 3 && HexValue(s[1]).Some? && HexValue(s[2]).Some? then
      [HexValue(s[1]).value * 16 + HexValue(s[2]).value] + PercentDecode(s[3..])
    else Utf8.EncodeChar(s[0]) + PercentDecode(s[1..])
  }

  function DecodeValue(s: string): string { Utf8.DecodeLossy(PercentDecode(s)) }

  function ParsePair(piece: string): (string, string) {
    var i := IndexOfChar(piece, '=');
    (DecodeValue(piece[..i]), if i < |piece| then DecodeValue(piece[i + 1..]) else "")
  }

  function Parse(query: string): Pairs {
    if query == "" then []
    else
      var i := IndexOfChar(query, '&');
      (if i == 0 then [] else [ParsePair(query[..i])]) + if i < |query| then Parse(query[i + 1..]) else []
  }

  /** Reading the pairs into a map keeps the last value of a key. */
  function Get(pairs: Pairs, key: string): Option<string> {
    if pairs == [] then None
    else if pairs[|pairs| - 1].0 == key then Some(pairs[|pairs| - 1].1)
    else Get(pairs[..|pairs| - 1], key)
  }

  // ---------------------------------------------------------------------------
  // Round trip
  // ---------------------------------------------------------------------------

  /** Characters that survive in an encoded value. */
  predicate Safe(c: char) { Unreserved(c) || c == '+' || c == '%' }

  lemma {:induction false} EncodedIsSafe(b: seq<Utf8.byte>)
    ensures forall c | c in SerializeBytes(b) :: Safe(c)
  {
    if b != [] { EncodedIsSafe(b[1..]); }
  }

  lemma {:induction false} BytesRoundTrip(b: seq<Utf8.byte>)
    ensures PercentDecode(SerializeBytes(b)) == b
  {
    if b != [] {
      var head, rest := SerializeByte(b[0]), SerializeBytes(b[1..]);
      var s := SerializeBytes(b);
      assert s == head + rest;
      BytesRoundTrip(b[1..]);
      assert s[|head|..] == rest;
      if b[0] < 0x80 && Unreserved(b[0] as char) {
        assert Utf8.EncodeChar(b[0] as char) == [b[0]];
      }
    }
  }

  lemma ValueRoundTrip(s: string)
    ensures DecodeValue(EncodeValue(s)) == s
  {
    BytesRoundTrip(Utf8.Encode(s));
    Utf8.RoundTrip(s);
  }

  lemma SafeText(s: string)
    ensures '=' !in EncodeValue(s) && '&' !in EncodeValue(s)
  {
    EncodedIsSafe(Utf8.Encode(s));
  }

  lemma SplitPair(k: string, v: string)
    requires '=' !in k
    ensures ParsePair(k + "=" + v) == (DecodeValue(k), DecodeValue(v))
  {
    IndexOfCharAt(k, v, '=');
    var s := k + "=" + v;
    assert s[..|k|] == k && s[|k| + 1..] == v;
  }

  lemma PairRoundTrip(p: (string, string))
    ensures ParsePair(SerializePair(p)) == p
    ensures '&' !in SerializePair(p) && SerializePair(p) != ""
  {
    SafeText(p.0);
    SafeText(p.1);
    SplitPair(EncodeValue(p.0), EncodeValue(p.1));
    ValueRoundTrip(p.0);
    ValueRoundTrip(p.1);
  }

  /** Serialising pairs and parsing them again gives the pairs back, for every text. */
  lemma {:induction false} PairsRoundTrip(pairs: Pairs)
    ensures Parse(Serialize(pairs)) == pairs
  {
    if pairs != [] {
      hide SerializePair;
      var head := SerializePair(pairs[0]);
      PairRoundTrip(pairs[0]);
      if |pairs| == 1 {
        IndexOfCharAt(head, "", '&');
        assert head[..|head|] == head;
      } else {
        var rest := Serialize(pairs[1..]);
        IndexOfCharAt(head, rest, '&');
        var s := head + "&" + rest;
        assert s[..|head|] == head && s[|head| + 1..] == rest;
        PairsRoundTrip(pairs[1..]);
      }
    }
  }

  /** One more pair at the end of a query. */
  lemma {:induction false} ParseAppended(pairs: Pairs, p: (string, string))
    requires pairs != []
    ensures Serialize(pairs) + "&" + SerializePair(p) == Serialize(pairs + [p])
  {
    if |pairs| == 1 {
      assert (pairs + [p])[1..] == [p];
    } else {
      assert (pairs + [p])[1..] == pairs[1..] + [p];
      ParseAppended(pairs[1..], p);
    }
  }

  lemma {:induction false} SerializedCharacters(pairs: Pairs)
    ensures forall c | c in Serialize(pairs) :: Safe(c) || c == '&' || c == '='
  {
    if pairs != [] {
      EncodedIsSafe(Utf8.Encode(pairs[0].0));
      EncodedIsSafe(Utf8.Encode(pairs[0].1));
      if |pairs| > 1 { SerializedCharacters(pairs[1..]); }
    }
  }

  lemma {:induction false} UnreservedUnchanged(s: string)
    requires forall c | c in s :: Unreserved(c)
    ensures EncodeValue(s) == s
  {
    if s != "" {
      UnreservedUnchanged(s[1..]);
      assert Unreserved(s[0]);
      assert Utf8.EncodeChar(s[0]) == [s[0] as int];
      assert Utf8.Encode(s)[1..] == Utf8.Encode(s[1..]);
    }
  }
}
