/** Unpadded base64url: section 5 of RFC 4648, with the strictness of the `base64` crate's
    `URL_SAFE_NO_PAD` engine (no padding, no stray trailing bits). */
module Base64Url {
  import opened Text
  import opened Utf8

  function SextetChar(v: nat): (c: char)
    requires v < 64
    ensures CharSextet(c) == Some(v)
  {
    if v < 26 then ('A' as int + v) as char
    else if v < 52 then ('a' as int + v - 26) as char
    else if v < 62 then ('0' as int + v - 52) as char
    else if v == 62 then '-' else '_'
  }

  function CharSextet(c: char): (r: Option<nat>)
    ensures r.Some? ==> r.value < 64
  {
    if 'A' <= c <= 'Z' then Some(c as int - 'A' as int)
    else if 'a' <= c <= 'z' then Some(c as int - 'a' as int + 26)
    else if '0' <= c <= '9' then Some(c as int - '0' as int + 52)
    else if c == '-' then Some(62)
    else if c == '_' then Some(63)
    else None
  }

  function Encode(b: seq<byte>): string {
    if b == [] then ""
    else if |b| == 1 then [SextetChar(b[0] / 4), SextetChar(b[0] % 4 * 16)]
    else if |b| == 2 then
      [SextetChar(b[0] / 4), SextetChar(b[0] % 4 * 16 + b[1] / 16), SextetChar(b[1] % 16 * 4)]
    else
      [SextetChar(b[0] / 4), SextetChar(b[0] % 4 * 16 + b[1] / 16), SextetChar(b[1] % 16 * 4 + b[2] / 64),
       SextetChar(b[2] % 64)] + Encode(b[3..])
  }

  function Decode(s: string): Option<seq<byte>> {
    if s == "" then Some([])
    else if |s| == 1 then None
    else
      match (CharSextet(s[0]), CharSextet(s[1]))
      case (Some(x), Some(y)) =>
        if |s| == 2 then (if y % 16 == 0 then Some([x * 4 + y / 16]) else None)
        else
          (match CharSextet(s[2])
           case None => None
           case Some(z) =>
             if |s| == 3 then (if z % 4 == 0 then Some([x * 4 + y / 16, y % 16 * 16 + z / 4]) else None)
             else
               match (CharSextet(s[3]), Decode(s[4..]))
               case (Some(w), Some(rest)) => Some([x * 4 + y / 16, y % 16 * 16 + z / 4, z % 4 * 64 + w] + rest)
               case _ => None)
      case _ => None
  }

  lemma GroupBack(a: byte, b: byte, c: byte)
    ensures var x, y, z, w := a / 4, a % 4 * 16 + b / 16, b % 16 * 4 + c / 64, c % 64;
      && x < 64 && y < 64 && z < 64 && w < 64
      && x * 4 + y / 16 == a && y % 16 * 16 + z / 4 == b && z % 4 * 64 + w == c
  {
    assert (a % 4 * 16 + b / 16) / 16 == a % 4 && (a % 4 * 16 + b / 16) % 16 == b / 16;
    assert (b % 16 * 4 + c / 64) / 4 == b % 16 && (b % 16 * 4 + c / 64) % 4 == c / 64;
  }

  lemma EncodeGroup(a: byte, b: byte, c: byte, rest: seq<byte>)
    ensures Encode([a, b, c] + rest)
         == [SextetChar(a / 4), SextetChar(a % 4 * 16 + b / 16), SextetChar(b % 16 * 4 + c / 64), SextetChar(c % 64)]
            + Encode(rest)
  {
    assert ([a, b, c] + rest)[3..] == rest;
  }

  lemma DecodeGroup(x: nat, y: nat, z: nat, w: nat, rest: string)
    requires x < 64 && y < 64 && z < 64 && w < 64 && Decode(rest).Some?
    ensures x * 4 + y / 16 < 256 && y % 16 * 16 + z / 4 < 256 && z % 4 * 64 + w < 256
    ensures Decode([SextetChar(x), SextetChar(y), SextetChar(z), SextetChar(w)] + rest)
         == Some([x * 4 + y / 16, y % 16 * 16 + z / 4, z % 4 * 64 + w] + Decode(rest).value)
  {
    assert ([SextetChar(x), SextetChar(y), SextetChar(z), SextetChar(w)] + rest)[4..] == rest;
  }

  lemma {:induction false} RoundTrip(b: seq<byte>)
    ensures Decode(Encode(b)) == Some(b)
    decreases |b|, 1
  {
    if |b| == 1 {
      GroupBack(b[0], 0, 0);
      assert b == [b[0]];
    } else if |b| == 2 {
      GroupBack(b[0], b[1], 0);
      assert b == [b[0], b[1]];
    } else if |b| >= 3 {
      RoundTripGroup(b);
    }
  }

  lemma {:induction false} RoundTripGroup(b: seq<byte>)
    requires |b| >= 3
    ensures Decode(Encode(b)) == Some(b)
    decreases |b|, 0
  {
    var rest := b[3..];
    RoundTrip(rest);
    GroupBack(b[0], b[1], b[2]);
    DecodeGroup(b[0] / 4, b[0] % 4 * 16 + b[1] / 16, b[1] % 16 * 4 + b[2] / 64, b[2] % 64, Encode(rest));
    assert b == [b[0], b[1], b[2]] + rest;
  }

  lemma SextetCharUnique(c: char)
    ensures CharSextet(c).Some? ==> SextetChar(CharSextet(c).value) == c
  {
  }

  lemma GroupForth(x: nat, y: nat, z: nat, w: nat)
    requires x < 64 && y < 64 && z < 64 && w < 64
    ensures var a, b, c := x * 4 + y / 16, y % 16 * 16 + z / 4, z % 4 * 64 + w;
      && a < 256 && b < 256 && c < 256
      && a / 4 == x && a % 4 * 16 + b / 16 == y && b % 16 * 4 + c / 64 == z && c % 64 == w
      && (y % 16 == 0 ==> a % 4 * 16 == y) && (z % 4 == 0 ==> b % 16 * 4 == z)
  {
  }

  /** There is one text per byte string: whatever decodes is what would have been encoded. */
  lemma {:induction false} Canonical(s: string)
    ensures Decode(s).Some? ==> Encode(Decode(s).value) == s
    decreases |s|, 1
  {
    if Decode(s).Some? && s != "" {
      SextetCharUnique(s[0]);
      SextetCharUnique(s[1]);
      var x, y := CharSextet(s[0]).value, CharSextet(s[1]).value;
      if |s| == 2 {
        GroupForth(x, y, 0, 0);
        assert s == [s[0], s[1]];
      } else {
        SextetCharUnique(s[2]);
        var z := CharSextet(s[2]).value;
        if |s| == 3 {
          GroupForth(x, y, z, 0);
          assert s == [s[0], s[1], s[2]];
        } else {
          SextetCharUnique(s[3]);
          CanonicalGroup(s);
        }
      }
    }
  }

  lemma DecodedGroup(s: string) returns (x: nat, y: nat, z: nat, w: nat)
    requires |s| >= 4 && Decode(s).Some?
    ensures x < 64 && y < 64 && z < 64 && w < 64
    ensures s[..4] == [SextetChar(x), SextetChar(y), SextetChar(z), SextetChar(w)]
    ensures Decode(s[4..]).Some?
    ensures Decode(s).value == [x * 4 + y / 16, y % 16 * 16 + z / 4, z % 4 * 64 + w] + Decode(s[4..]).value
  {
    x, y, z, w := CharSextet(s[0]).value, CharSextet(s[1]).value, CharSextet(s[2]).value, CharSextet(s[3]).value;
    SextetCharUnique(s[0]);
    SextetCharUnique(s[1]);
    SextetCharUnique(s[2]);
    SextetCharUnique(s[3]);
  }

  lemma {:induction false} CanonicalGroup(s: string)
    requires |s| >= 4 && Decode(s).Some?
    ensures Encode(Decode(s).value) == s
    decreases |s|, 0
  {
    hide Encode, SextetChar, CharSextet;
    var x, y, z, w := DecodedGroup(s);
    Canonical(s[4..]);
    GroupForth(x, y, z, w);
    GroupAgain(x * 4 + y / 16, y % 16 * 16 + z / 4, z % 4 * 64 + w, Decode(s[4..]).value, x, y, z, w);
    assert s == s[..4] + s[4..];
  }

  lemma GroupAgain(a: byte, b: byte, c: byte, rest: seq<byte>, x: nat, y: nat, z: nat, w: nat)
    requires x < 64 && y < 64 && z < 64 && w < 64
    requires a / 4 == x && a % 4 * 16 + b / 16 == y && b % 16 * 4 + c / 64 == z && c % 64 == w
    ensures Encode([a, b, c] + rest) == [SextetChar(x), SextetChar(y), SextetChar(z), SextetChar(w)] + Encode(rest)
  {
    EncodeGroup(a, b, c, rest);
  }

  predicate IsAlphabet(s: string) { forall c | c in s :: CharSextet(c).Some? }

  lemma {:induction false} EncodedAlphabet(b: seq<byte>)
    ensures IsAlphabet(Encode(b))
  {
    if |b| >= 3 { EncodedAlphabet(b[3..]); }
  }

  /** The alphabet of table 2 of RFC 4648: capitals, small letters and digits in a row each, a dash, a low line. */
  lemma AlphabetIs(v: nat)
    ensures v < 64 ==> CharSextet(SextetChar(v)) == Some(v)
    ensures v < 61 && v != 25 && v != 51 ==> SextetChar(v + 1) as int == SextetChar(v) as int + 1
    ensures SextetChar(0) == 'A' && SextetChar(26) == 'a' && SextetChar(52) == '0'
    ensures SextetChar(62) == '-' && SextetChar(63) == '_'
  {
  }

  /** Four characters show the 24 bits of three bytes from the highest on. */
  lemma GroupIsNumber(a: byte, b: byte, c: byte, rest: seq<byte>)
    ensures var s := Encode([a, b, c] + rest);
      && |s| >= 4 && s[4..] == Encode(rest) && (forall i | 0 <= i < 4 :: CharSextet(s[i]).Some?)
      && (a * 256 + b) * 256 + c
         == ((CharSextet(s[0]).value * 64 + CharSextet(s[1]).value) * 64 + CharSextet(s[2]).value) * 64
            + CharSextet(s[3]).value
  {
    EncodeGroup(a, b, c, rest);
    hide Encode;
  }
}
