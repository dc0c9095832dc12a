/** Shared range-proof utilities
    (verification/bulletproofs/bulletproofs_utils.py). */
module BulletproofsUtils {
  import opened Base
  import opened Text
  import opened Crypto
  import opened FormatUtils

  /** `b ** e` for a non-negative exponent. */
  function Pow(b: int, e: nat): int
  {
    if e == 0 then 1 else b * Pow(b, e - 1)
  }

  lemma {:induction false} PowAdd(b: int, m: nat, n: nat)
    ensures Pow(b, m + n) == Pow(b, m) * Pow(b, n)
  {
    if m > 0 {
      PowAdd(b, m - 1, n);
      assert Pow(b, m + n) == b * Pow(b, m - 1 + n);
    }
  }

  lemma {:induction false} PowPositive(b: nat, e: nat)
    requires b > 0
    ensures Pow(b, e) > 0
  {
    if e > 0 {
      PowPositive(b, e - 1);
    }
  }

  /** A byte is two hex digits: `256^k == 16^(2k)`, and `256^k == 2^(8k)`. */
  lemma {:induction false} Pow256(k: nat)
    ensures Pow(256, k) == Pow(16, 2 * k)
    ensures Pow(256, k) == Pow(2, 8 * k)
  {
    if k > 0 {
      Pow256(k - 1);
      PowAdd(16, 2, 2 * (k - 1));
      PowAdd(2, 8, 8 * (k - 1));
      assert Pow(16, 2) == 256;
      assert Pow(2, 8) == 256 by {
        assert Pow(2, 4) == 16;
        PowAdd(2, 4, 4);
      }
    }
  }

  /** `int.from_bytes(b, "big")`. */
  function FromBytesBE(b: Bytes): (r: nat)
    ensures r < Pow(256, |b|)
  {
    if b == [] then 0
    else
      var rest := FromBytesBE(b[1..]);
      var scale := Pow(256, |b| - 1);
      DigitBound(b[0], 256, scale, rest);
      b[0] * scale + rest
  }

  /** A leading digit below the base keeps a numeral below the next power. */
  lemma DigitBound(x: nat, base: nat, scale: nat, rest: nat)
    requires x < base && rest < scale
    ensures x * scale + rest < base * scale
  {
    assert x * scale <= (base - 1) * scale;
  }

  /** `int(s, 16)` for a string of hex digits. */
  function HexToNat(s: string): nat
    requires forall i | 0 <= i < |s| :: HexValue(s[i]).Some?
  {
    if s == [] then 0
    else
      PowPositive(16, |s| - 1);
      HexValue(s[0]).value * Pow(16, |s| - 1) + HexToNat(s[1..])
  }

  /** Reading the hex text of some bytes as a number gives the bytes' big
      endian value. */
  lemma {:induction false} HexToNatToHex(d: Bytes)
    ensures forall i | 0 <= i < |ToHex(d)| :: HexValue(ToHex(d)[i]).Some?
    ensures HexToNat(ToHex(d)) == FromBytesBE(d)
  {
    forall i | 0 <= i < |ToHex(d)| ensures HexValue(ToHex(d)[i]).Some? {
    }
    if d != [] {
      var n := |d| - 1;
      HexToNatToHex(d[1..]);
      HexPair(d[0] / 16, d[0] % 16, ToHex(d[1..]));
      var scale, rest := Pow(16, 2 * n), FromBytesBE(d[1..]);
      Pow256(n);
      assert FromBytesBE(d) == d[0] * scale + rest;
      ByteDigits(d[0], scale);
    }
  }

  /** Two leading hex digits, read as a number. */
  lemma HexPair(hi: nat, lo: nat, tail: string)
    requires hi < 16 && lo < 16 && forall i | 0 <= i < |tail| :: HexValue(tail[i]).Some?
    ensures var s := [HexDigit(hi), HexDigit(lo)] + tail;
      && (forall i | 0 <= i < |s| :: HexValue(s[i]).Some?)
      && HexToNat(s) == hi * (16 * Pow(16, |tail|)) + (lo * Pow(16, |tail|) + HexToNat(tail))
  {
    HexValueOfDigit(hi);
    HexValueOfDigit(lo);
    var s := [HexDigit(hi), HexDigit(lo)] + tail;
    assert forall i | 2 <= i < |s| :: s[i] == tail[i - 2];
    assert s[1..] == [HexDigit(lo)] + tail && s[1..][1..] == tail;
    assert HexToNat(s[1..]) == lo * Pow(16, |tail|) + HexToNat(tail);
  }

  /** A byte's two nibbles, scaled: `hi*16P + lo*P == b*P`. */
  lemma ByteDigits(b: byte, scale: nat)
    ensures (b / 16) * (16 * scale) + (b % 16) * scale == b * scale
  {
    assert b == 16 * (b / 16) + b % 16;
    assert b * scale == 16 * (b / 16) * scale + (b % 16) * scale;
  }

  /** `compute_challenge(transcript, length)`: the SHA-256 digest of the
      UTF-8 transcript, read big endian, reduced below `2^length`. */
  function ComputeChallenge(p: Primitives, transcript: string, length: nat): (r: nat)
    ensures r < Pow(2, length)
    ensures r % Pow(2, length) == FromBytesBE(p.sha256(Utf8(transcript))) % Pow(2, length)
  {
    var x, m := FromBytesBE(p.sha256(Utf8(transcript))), Pow(2, length);
    PowPositive(2, length);
    assert 0 <= x % m < m;
    ModSmall(x % m, m);
    x % m
  }

  /** `hash_to_point(data)`: the hex SHA-256 digest read back as an integer,
      which is below `2^256`. */
  function HashToPoint(p: Primitives, data: string): (r: nat)
    ensures r < Pow(2, 256)
    ensures r == FromBytesBE(p.sha256(Utf8(data)))
  {
    HexToNatToHex(p.sha256(Utf8(data)));
    Pow256(32);
    HexToNat(ToHex(p.sha256(Utf8(data))))
  }

  /** At the default length of 256 bits the challenge is the whole digest:
      it equals `hash_to_point` of the same text. */
  lemma ChallengeAtFullLength(p: Primitives, transcript: string, length: nat)
    requires length == 256
    ensures ComputeChallenge(p, transcript, length) == HashToPoint(p, transcript)
  {
    var x := FromBytesBE(p.sha256(Utf8(transcript)));
    Pow256(32);
    ModSmall(x, Pow(2, length));
  }

  lemma ModSmall(x: nat, m: nat)
    requires x < m
    ensures x % m == x
  {
  }

  /** `prod(b_i ** e_i)` over the paired lists. */
  function Product(bases: seq<int>, exponents: seq<nat>): int
    requires |bases| == |exponents|
  {
    if bases == [] then 1
    else Product(bases[..|bases| - 1], exponents[..|exponents| - 1]) * Pow(bases[|bases| - 1], exponents[|exponents| - 1])
  }

  /** Appending a pair multiplies the product by `base ** exponent`. */
  lemma ProductAppend(bases: seq<int>, exponents: seq<nat>, b: int, e: nat)
    requires |bases| == |exponents|
    ensures Product(bases + [b], exponents + [e]) == Product(bases, exponents) * Pow(b, e)
  {
    assert (bases + [b])[..|bases|] == bases;
    assert (exponents + [e])[..|exponents|] == exponents;
  }

  function Sum(s: seq<nat>): nat
  {
    if s == [] then 0 else Sum(s[..|s| - 1]) + s[|s| - 1]
  }

  /** With a single base the product is that base raised to the sum of the
      exponents. */
  lemma {:induction false} ProductSameBase(bases: seq<int>, exponents: seq<nat>, b: int)
    requires |bases| == |exponents|
    requires forall i | 0 <= i < |bases| :: bases[i] == b
    ensures Product(bases, exponents) == Pow(b, Sum(exponents))
  {
    if bases != [] {
      var n := |bases| - 1;
      ProductSameBase(bases[..n], exponents[..n], b);
      PowAdd(b, Sum(exponents[..n]), exponents[n]);
    }
  }

  /** `multiexponentiation(bases, exponents)`: ValueError for lists of
      different lengths, otherwise the product of the powers, computed left
      to right. */
  method Multiexponentiation(bases: seq<int>, exponents: seq<nat>) returns (r: Result<int>)
    ensures r.Err? <==> |bases| != |exponents|
    ensures r.Err? ==> r.error.ValueError?
    ensures r.Ok? ==> r.value == Product(bases, exponents)
  {
    if |bases| != |exponents| {
      return Err(ValueError("Bases and exponents must be of the same length."));
    }
    var result := 1;
    var i := 0;
    while i < |bases|
      invariant 0 <= i <= |bases|
      invariant result == Product(bases[..i], exponents[..i])
    {
      ProductAppend(bases[..i], exponents[..i], bases[i], exponents[i]);
      assert bases[..i + 1] == bases[..i] + [bases[i]];
      assert exponents[..i + 1] == exponents[..i] + [exponents[i]];
      result := result * Pow(bases[i], exponents[i]);
      i := i + 1;
    }
    assert bases[..i] == bases && exponents[..i] == exponents;
    return Ok(result);
  }

  /** `validate_commitment_range(commitment, range_min, range_max)`. */
  function ValidateCommitmentRange(commitment: int, rangeMin: int, rangeMax: int): (r: bool)
    ensures r <==> rangeMin <= commitment && commitment <= rangeMax
  {
    rangeMin <= commitment <= rangeMax
  }

  /** Both ends of the range are accepted, and nothing is in an empty range. */
  lemma RangeInclusive(rangeMin: int, rangeMax: int, c: int)
    ensures rangeMin <= rangeMax ==> ValidateCommitmentRange(rangeMin, rangeMin, rangeMax)
    ensures rangeMin <= rangeMax ==> ValidateCommitmentRange(rangeMax, rangeMin, rangeMax)
    ensures rangeMin > rangeMax ==> !ValidateCommitmentRange(c, rangeMin, rangeMax)
  {
  }
}
