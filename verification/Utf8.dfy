/** UTF-8 as `str::as_bytes` produces it and `String::from_utf8_lossy` reads it. */
module Utf8 {

  type byte = b: int | 0 <= b < 256

  function EncodeChar(c: char): seq<byte> {
    var n := c as int;
    if n < 0x80 then [n]
    else if n < 0x800 then [0xC0 + n / 64, 0x80 + n % 64]
    else if n < 0x1_0000 then [0xE0 + n / 4096, 0x80 + n / 64 % 64, 0x80 + n % 64]
    else [0xF0 + n / 262_144, 0x80 + n / 4096 % 64, 0x80 + n / 64 % 64, 0x80 + n % 64]
  }

  function Encode(s: string): seq<byte> {
    if s == "" then [] else EncodeChar(s[0]) + Encode(s[1..])
  }

  /** Length of the character a lead byte announces; 0 when it announces none. */
  function Width(lead: byte): nat {
    if lead < 0x80 then 1
    else if 0xC2 <= lead < 0xE0 then 2
    else if 0xE0 <= lead < 0xF0 then 3
    else if 0xF0 <= lead < 0xF5 then 4
    else 0
  }

  /** What the second byte may be; overlong forms, surrogates and values past U+10FFFF are out. */
  predicate SecondByteFits(lead: byte, b: byte) {
    if lead == 0xE0 then 0xA0 <= b < 0xC0
    else if lead == 0xED then 0x80 <= b < 0xA0
    else if lead == 0xF0 then 0x90 <= b < 0xC0
    else if lead == 0xF4 then 0x80 <= b < 0x90
    else 0x80 <= b < 0xC0
  }

  predicate Continues(b: byte) { 0x80 <= b < 0xC0 }

  /** How many bytes at the front can belong to one well-formed character. */
  function WellFormedPrefix(b: seq<byte>): (n: nat)
    requires b != []
    ensures 1 <= n <= |b|
  {
    var w := Width(b[0]);
    if w <= 1 || |b| < 2 || !SecondByteFits(b[0], b[1]) then 1
    else if w == 2 || |b| < 3 || !Continues(b[2]) then 2
    else if w == 3 || |b| < 4 || !Continues(b[3]) then 3
    else 4
  }

  function ScalarValue(b: seq<byte>): (n: int)
    requires b != [] && Width(b[0]) == WellFormedPrefix(b)
    ensures 0 <= n < 0xD800 || 0xE000 <= n < 0x11_0000
  {
    var w, lead: int := Width(b[0]), b[0];
    if w == 1 then lead
    else if w == 2 then (lead - 0xC0) * 64 + Payload(b[1])
    else if w == 3 then (lead - 0xE0) * 4096 + Payload(b[1]) * 64 + Payload(b[2])
    else (lead - 0xF0) * 262_144 + Payload(b[1]) * 4096 + Payload(b[2]) * 64 + Payload(b[3])
  }

  function Payload(b: byte): int { b - 0x80 }

  /** Every maximal ill-formed piece becomes one U+FFFD. */
  function DecodeLossy(b: seq<byte>): string {
    if b == [] then ""
    else
      var n := WellFormedPrefix(b);
      [if Width(b[0]) == n then ScalarValue(b) as char else '\U{FFFD}'] + DecodeLossy(b[n..])
  }

  /** What decoding sees of one encoded character, whatever follows it. */
  predicate ReadsBack(c: char, b: seq<byte>, rest: seq<byte>)
    requires b != []
  {
    && Width(b[0]) == WellFormedPrefix(b) == |EncodeChar(c)|
    && ScalarValue(b) == c as int
    && b[WellFormedPrefix(b)..] == rest
  }

  lemma TwoBytes(c: char, rest: seq<byte>)
    requires 0x80 <= c as int < 0x800
    ensures ReadsBack(c, EncodeChar(c) + rest, rest)
  {
  }

  lemma ThreeBytes(c: char, rest: seq<byte>)
    requires 0x800 <= c as int < 0x1_0000
    ensures ReadsBack(c, EncodeChar(c) + rest, rest)
  {
    var n := c as int;
    assert n == n / 4096 * 4096 + n / 64 % 64 * 64 + n % 64;
  }

  lemma FourDigits(n: nat)
    ensures n == n / 262_144 * 262_144 + n / 4096 % 64 * 4096 + n / 64 % 64 * 64 + n % 64
  {
    var a := n / 64;
    var b := a / 64;
    assert n / 4096 == b by { assert 4096 * b <= n < 4096 * b + 4096; }
    var c := b / 64;
    assert n / 262_144 == c by { assert 262_144 * c <= n < 262_144 * c + 262_144; }
    assert n == 64 * a + n % 64 && a == 64 * b + a % 64 && b == 64 * c + b % 64;
  }

  lemma FourBytes(c: char, rest: seq<byte>)
    requires 0x1_0000 <= c as int
    ensures ReadsBack(c, EncodeChar(c) + rest, rest)
  {
    FourDigits(c as int);
  }

  lemma CharRoundTrip(c: char, rest: seq<byte>)
    ensures ReadsBack(c, EncodeChar(c) + rest, rest)
  {
    if c as int >= 0x1_0000 {
      FourBytes(c, rest);
    } else if c as int >= 0x800 {
      ThreeBytes(c, rest);
    } else if c as int >= 0x80 {
      TwoBytes(c, rest);
    }
  }

  lemma {:induction false} RoundTrip(s: string)
    ensures DecodeLossy(Encode(s)) == s
  {
    if s != "" {
      CharRoundTrip(s[0], Encode(s[1..]));
      RoundTrip(s[1..]);
    }
  }

  lemma EncodeInjective(s: string, t: string)
    ensures Encode(s) == Encode(t) ==> s == t
  {
    RoundTrip(s);
    RoundTrip(t);
  }
}
