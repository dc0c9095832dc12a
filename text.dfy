/** Text primitives the core relies on: Python's `str()` of an int, UTF-8
    encoding (`str.encode()`), and facts about splitting strings at a
    separator. */
module Text {
  import opened Base

  function DigitChar(d: nat): (c: char)
    requires d < 10
    ensures '0' <= c <= '9'
  {
    "0123456789"[d]
  }

  function DigitValue(c: char): (d: nat)
    requires '0' <= c <= '9'
    ensures d < 10 && DigitChar(d) == c
  {
    (c as int) - ('0' as int)
  }

  predicate IsDigit(c: char) {
    '0' <= c <= '9'
  }

  /** Decimal digits of `n`, most significant first, no leading zeros. */
  function NatToDecimal(n: nat): (s: string)
    ensures |s| >= 1
    ensures AllDigits(s)
  {
    if n < 10 then [DigitChar(n)] else NatToDecimal(n / 10) + [DigitChar(n % 10)]
  }

  /** Python `str(i)` for an int. */
  function Decimal(i: int): (s: string)
    ensures |s| >= 1
    ensures forall k | 0 <= k < |s| :: IsDigit(s[k]) || (k == 0 && s[k] == '-')
  {
    if i < 0 then "-" + NatToDecimal(-i) else NatToDecimal(i)
  }

  predicate AllDigits(s: string) {
    forall i | 0 <= i < |s| :: IsDigit(s[i])
  }

  lemma AllDigitsPrefix(s: string, n: nat)
    requires AllDigits(s) && n <= |s|
    ensures AllDigits(s[..n])
  {
    forall i | 0 <= i < n ensures IsDigit(s[..n][i]) {
      assert s[..n][i] == s[i];
    }
  }

  /** Reads a string of decimal digits, most significant first. */
  function ParseNat(s: string): nat
    requires AllDigits(s)
  {
    if s == [] then 0
    else
      AllDigitsPrefix(s, |s| - 1);
      ParseNat(s[..|s| - 1]) * 10 + DigitValue(s[|s| - 1])
  }

  lemma DigitRoundTrip(d: nat)
    requires d < 10
    ensures DigitValue(DigitChar(d)) == d
  {
    if d == 0 {} else if d == 1 {} else if d == 2 {} else if d == 3 {} else if d == 4 {}
    else if d == 5 {} else if d == 6 {} else if d == 7 {} else if d == 8 {} else {}
  }

  lemma {:induction false} ParseNatToDecimal(n: nat)
    ensures ParseNat(NatToDecimal(n)) == n
  {
    var s := NatToDecimal(n);
    if n < 10 {
      DigitRoundTrip(n);
      assert s[..|s| - 1] == [];
    } else {
      var q, d := n / 10, n % 10;
      var t := NatToDecimal(q);
      assert s == t + [DigitChar(d)];
      assert s[..|s| - 1] == t;
      ParseNatToDecimal(q);
      DigitRoundTrip(d);
      assert ParseNat(s) == q * 10 + d;
    }
  }

  lemma NatToDecimalInjective(m: nat, n: nat)
    requires NatToDecimal(m) == NatToDecimal(n)
    ensures m == n
  {
    ParseNatToDecimal(m);
    ParseNatToDecimal(n);
  }

  /** Distinct ints print differently. */
  lemma DecimalInjective(a: int, b: int)
    requires Decimal(a) == Decimal(b)
    ensures a == b
  {
    var s := Decimal(a);
    if s[0] == '-' {
      assert a < 0 && b < 0;
      assert NatToDecimal(-a) == s[1..] == NatToDecimal(-b);
      NatToDecimalInjective(-a, -b);
    } else {
      assert a >= 0 && b >= 0;
      NatToDecimalInjective(a, b);
    }
  }

  /** A separator that occurs in neither head splits the string uniquely. */
  lemma SplitAtSeparator(a: string, r: string, a': string, r': string, c: char)
    requires c !in a && c !in a'
    requires a + [c] + r == a' + [c] + r'
    ensures a == a' && r == r'
  {
    var s := a + [c] + r;
    assert s == a' + [c] + r';
    assert s[|a|] == c && s[|a'|] == c;
    assert a == s[..|a|];
    assert a' == s[..|a'|];
    assert r == s[|a| + 1..];
    assert r' == s[|a'| + 1..];
  }

  /** UTF-8 encoding of one Unicode scalar value. */
  function Utf8Char(c: char): (b: Bytes)
    ensures 1 <= |b| <= 4
  {
    var n := c as int;
    if n < 0x80 then [n]
    else if n < 0x800 then [0xC0 + n / 0x40, 0x80 + n % 0x40]
    else if n < 0x10000 then [0xE0 + n / 0x1000, 0x80 + (n / 0x40) % 0x40, 0x80 + n % 0x40]
    else [0xF0 + n / 0x40000, 0x80 + (n / 0x1000) % 0x40, 0x80 + (n / 0x40) % 0x40, 0x80 + n % 0x40]
  }

  /** `s.encode()`: UTF-8, the default codec. */
  function Utf8(s: string): (b: Bytes)
    ensures |b| >= |s|
  {
    if s == [] then [] else Utf8Char(s[0]) + Utf8(s[1..])
  }

  /** ASCII text encodes byte for byte. */
  lemma {:induction false} Utf8Ascii(s: string)
    requires forall i | 0 <= i < |s| :: s[i] as int < 0x80
    ensures |Utf8(s)| == |s|
    ensures forall i | 0 <= i < |s| :: Utf8(s)[i] == s[i] as int
  {
    if s != [] {
      Utf8Ascii(s[1..]);
    }
  }

  /** UTF-8 encoding is injective on ASCII text. */
  lemma Utf8AsciiInjective(s: string, t: string)
    requires forall i | 0 <= i < |s| :: s[i] as int < 0x80
    requires forall i | 0 <= i < |t| :: t[i] as int < 0x80
    requires Utf8(s) == Utf8(t)
    ensures s == t
  {
    Utf8Ascii(s);
    Utf8Ascii(t);
    assert forall i | 0 <= i < |s| :: s[i] as int == t[i] as int;
  }

  /** ASCII whitespace: space, tab, line feed, carriage return, vertical tab
      and form feed. These are the characters `bytes.fromhex` skips. */
  predicate IsAsciiSpace(c: char) {
    c == ' ' || c == '\t' || c == '\n' || c == '\r' || c as int == 0x0B || c as int == 0x0C
  }

  predicate StartsWith(s: string, prefix: string) {
    |prefix| <= |s| && s[..|prefix|] == prefix
  }
}
