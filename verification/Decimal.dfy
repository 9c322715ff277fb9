/** Decimal printing and parsing as Rust's `Display` and `FromStr` do them. */
module Decimal {
  import opened Text

  function DigitChar(d: nat): (c: char)
    requires d < 10
    ensures IsAsciiDigit(c) && DigitValue(c) == d
  {
    ('0' as int + d) as char
  }

  function DigitValue(c: char): nat
    requires IsAsciiDigit(c)
  {
    c as int - '0' as int
  }

  predicate AllDigits(s: string) { forall c | c in s :: IsAsciiDigit(c) }

  function NatToString(n: nat): (s: string)
    ensures s != "" && AllDigits(s)
  {
    if n < 10 then [DigitChar(n)] else NatToString(n / 10) + [DigitChar(n % 10)]
  }

  function IntToString(n: int): string {
    if n < 0 then "-" + NatToString(-n) else NatToString(n)
  }

  function DigitsValue(s: string): nat
    requires AllDigits(s)
  {
    if s == "" then 0 else 10 * DigitsValue(s[..|s| - 1]) + DigitValue(s[|s| - 1])
  }

  /** `parse` for an integer type whose values run from `lo` to `hi`; unsigned types (`lo == 0`)
      take no minus sign. */
  function ParseInt(s: string, lo: int, hi: int): Option<int> {
    var minus := lo < 0 && StartsWith(s, "-");
    var digits := if minus || StartsWith(s, "+") then s[1..] else s;
    if digits == "" || !AllDigits(digits) then None
    else
      var v: int := if minus then 0 - DigitsValue(digits) else DigitsValue(digits);
      if lo <= v <= hi then Some(v) else None
  }

  lemma {:induction false} DigitsOfNat(n: nat)
    ensures DigitsValue(NatToString(n)) == n
  {
    if n >= 10 {
      DigitsOfNat(n / 10);
      var s := NatToString(n);
      assert s[..|s| - 1] == NatToString(n / 10);
    }
  }

  /** What is printed is read back. */
  lemma ParsePrinted(n: int, lo: int, hi: int)
    requires lo <= 0 && lo <= n <= hi
    ensures ParseInt(IntToString(n), lo, hi) == Some(n)
  {
    var digits := NatToString(if n < 0 then -n else n);
    DigitsOfNat(if n < 0 then -n else n);
    assert IsAsciiDigit(digits[0]);
    if n < 0 {
      assert IntToString(n)[1..] == digits;
    }
  }

  /** `{:0width}`: zeros between the sign and the digits. */
  function Padded(n: int, width: nat): string {
    if n < 0 then "-" + ZeroFill(NatToString(-n), if width == 0 then 0 else width - 1)
    else ZeroFill(NatToString(n), width)
  }

  function ZeroFill(digits: string, width: nat): string
    decreases width - |digits|
  {
    if |digits| >= width then digits else ZeroFill("0" + digits, width)
  }

  // ---------------------------------------------------------------------------
  // Fixed-width numbers compare as text the way they compare as numbers
  // ---------------------------------------------------------------------------

  lemma {:induction false} LexByPrefix(a: string, b: string, s: string, t: string)
    requires |a| == |b|
    ensures LexLe(a + s, b + t) <==> (if a == b then LexLe(s, t) else LexLe(a, b))
  {
    if a == "" {
      assert a + s == s && b + t == t;
    } else {
      assert (a + s)[1..] == a[1..] + s && (b + t)[1..] == b[1..] + t;
      assert a == [a[0]] + a[1..] && b == [b[0]] + b[1..];
      LexByPrefix(a[1..], b[1..], s, t);
    }
  }

  lemma LexOneChar(x: char, y: char)
    ensures LexLe([x], [y]) <==> x <= y
  {
    assert [x][1..] == "" && [y][1..] == "";
  }

  lemma LastDigitDecides(p: int, q: int, x: int, y: int)
    requires 0 <= x < 10 && 0 <= y < 10
    ensures 10 * p + x <= 10 * q + y <==> (if p == q then x <= y else p <= q)
    ensures 10 * p + x == 10 * q + y <==> p == q && x == y
  {
  }

  lemma ValueOfSnoc(front: string, x: char)
    requires AllDigits(front + [x])
    ensures AllDigits(front) && IsAsciiDigit(x)
    ensures DigitsValue(front + [x]) == 10 * DigitsValue(front) + DigitValue(x)
  {
    var s := front + [x];
    assert s[..|s| - 1] == front && s[|s| - 1] == x && x in s;
    assert forall c | c in front :: c in s;
  }

  lemma {:induction false} LexIsNumeric(a: string, b: string)
    requires AllDigits(a) && AllDigits(b) && |a| == |b|
    ensures LexLe(a, b) <==> DigitsValue(a) <= DigitsValue(b)
    ensures a == b <==> DigitsValue(a) == DigitsValue(b)
  {
    if a != "" {
      var front, back := a[..|a| - 1], b[..|b| - 1];
      var x, y := a[|a| - 1], b[|b| - 1];
      assert a == front + [x] && b == back + [y];
      ValueOfSnoc(front, x);
      ValueOfSnoc(back, y);
      LexIsNumeric(front, back);
      LexByPrefix(front, back, [x], [y]);
      LexOneChar(x, y);
      LastDigitDecides(DigitsValue(front), DigitsValue(back), DigitValue(x), DigitValue(y));
    }
  }

  lemma {:induction false} ZeroFillKeepsValue(s: string, width: nat)
    requires AllDigits(s)
    ensures AllDigits(ZeroFill(s, width))
    ensures DigitsValue(ZeroFill(s, width)) == DigitsValue(s)
    ensures |ZeroFill(s, width)| == if |s| >= width then |s| else width
    decreases width - |s|
  {
    if |s| < width {
      LeadingZero(s);
      ZeroFillKeepsValue("0" + s, width);
    }
  }

  lemma {:induction false} LeadingZero(s: string)
    requires AllDigits(s)
    ensures DigitsValue("0" + s) == DigitsValue(s)
  {
    if s != "" {
      assert ("0" + s)[..|s|] == "0" + s[..|s| - 1];
      LeadingZero(s[..|s| - 1]);
    } else {
      assert ("0" + s)[..0] == "";
    }
  }

  lemma DigitCount(n: nat)
    ensures n < 10 ==> |NatToString(n)| == 1
    ensures 10 <= n < 100 ==> |NatToString(n)| == 2
    ensures 100 <= n < 1_000 ==> |NatToString(n)| == 3
    ensures 1_000 <= n < 10_000 ==> |NatToString(n)| == 4
    ensures n >= 10_000 ==> |NatToString(n)| >= 5
  {
    if n >= 10_000 {
      DigitCount(n / 10);
    } else if n >= 10 {
      DigitCount(n / 10);
    }
  }

  lemma PaddedDigits(n: nat, width: nat)
    requires (width == 2 && n < 100) || (width == 4 && n < 10_000)
    ensures AllDigits(Padded(n, width)) && |Padded(n, width)| == width && DigitsValue(Padded(n, width)) == n
  {
    DigitCount(n);
    DigitsOfNat(n);
    ZeroFillKeepsValue(NatToString(n), width);
  }
}
