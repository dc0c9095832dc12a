/** Hex and JSON encoding (utils/format_utils.py). `to_hex` is base16 with
    lowercase digits; it is also what `bytes.hex()` and `hexdigest()` return,
    so every hex string the core produces comes from `ToHex`. */
module FormatUtils {
  import opened Base
  import opened Text
  import opened Json
  import opened Crypto

  function HexDigit(n: nat): (c: char)
    requires n < 16
  {
    "0123456789abcdef"[n]
  }

  predicate IsLowerHex(c: char) {
    '0' <= c <= '9' || 'a' <= c <= 'f'
  }

  /** The value of a hex digit in either case, as `int(c, 16)` and
      `bytes.fromhex` read it. */
  function HexValue(c: char): (r: Option<nat>)
    ensures r.Some? ==> r.value < 16
  {
    if '0' <= c <= '9' then Some(c as int - '0' as int)
    else if 'a' <= c <= 'f' then Some(c as int - 'a' as int + 10)
    else if 'A' <= c <= 'F' then Some(c as int - 'A' as int + 10)
    else None
  }

  lemma HexValueOfDigit(n: nat)
    requires n < 16
    ensures HexValue(HexDigit(n)) == Some(n) && IsLowerHex(HexDigit(n))
  {
    assert "0123456789abcdef"[n] as int == if n < 10 then '0' as int + n else 'a' as int + n - 10;
  }

  /** `binascii.hexlify(data).decode()`: two lowercase digits per byte. */
  function ToHex(d: Bytes): (s: string)
    ensures |s| == 2 * |d|
    ensures forall i | 0 <= i < |s| :: IsLowerHex(s[i])
  {
    if d == [] then "" else [HexDigit(d[0] / 16), HexDigit(d[0] % 16)] + ToHex(d[1..])
  }

  /** Byte `i` is written at positions `2i` (high nibble) and `2i+1` (low
      nibble). */
  lemma {:induction false} ToHexNibbles(d: Bytes, i: nat)
    requires i < |d|
    ensures ToHex(d)[2 * i] == HexDigit(d[i] / 16)
    ensures ToHex(d)[2 * i + 1] == HexDigit(d[i] % 16)
  {
    if i > 0 {
      ToHexNibbles(d[1..], i - 1);
    }
  }

  /** Dropping the first `k` bytes drops the first `2k` digits. */
  lemma {:induction false} ToHexSuffix(d: Bytes, k: nat)
    requires k <= |d|
    ensures ToHex(d)[2 * k..] == ToHex(d[k..])
  {
    if k > 0 {
      ToHexSuffix(d[1..], k - 1);
      assert d[1..][k - 1..] == d[k..];
    }
  }

  /** `bytes.fromhex(s)`: pairs of hex digits in either case, with ASCII
      whitespace allowed before each pair; None where Python raises
      ValueError. */
  function FromHex(s: string): (r: Option<Bytes>)
    decreases |s|
  {
    if s == [] then Some([])
    else if IsAsciiSpace(s[0]) then FromHex(s[1..])
    else if |s| < 2 then None
    else match (HexValue(s[0]), HexValue(s[1]))
      case (Some(hi), Some(lo)) =>
        (match FromHex(s[2..])
         case Some(rest) => Some([hi * 16 + lo] + rest)
         case None => None)
      case _ => None
  }

  /** Decoding undoes `to_hex`. */
  lemma {:induction false} FromHexToHex(d: Bytes)
    ensures FromHex(ToHex(d)) == Some(d)
  {
    if d != [] {
      FromHexToHex(d[1..]);
      FromHexPair(d[0] / 16, d[0] % 16, ToHex(d[1..]));
      assert (d[0] / 16) * 16 + d[0] % 16 == d[0];
      assert d == [d[0]] + d[1..];
    }
  }

  /** Two digits `to_hex` writes decode to their byte, then the rest. */
  lemma FromHexPair(hi: nat, lo: nat, tail: string)
    requires hi < 16 && lo < 16
    ensures FromHex([HexDigit(hi), HexDigit(lo)] + tail)
         == if FromHex(tail).Some? then Some([hi * 16 + lo] + FromHex(tail).value) else None
  {
    HexValueOfDigit(hi);
    HexValueOfDigit(lo);
    var s := [HexDigit(hi), HexDigit(lo)] + tail;
    assert s[0] == HexDigit(hi) && s[1] == HexDigit(lo) && s[2..] == tail;
    assert !IsAsciiSpace(s[0]);
  }

  /** `to_hex` never maps two byte strings to the same text. */
  lemma ToHexInjective(d1: Bytes, d2: Bytes)
    requires ToHex(d1) == ToHex(d2)
    ensures d1 == d2
  {
    FromHexToHex(d1);
    FromHexToHex(d2);
  }

  /** `to_json` / `json.dumps(data)`: the emitted text, or TypeError when the
      value holds something JSON cannot represent. */
  function ToJson(p: Primitives, j: Json): (r: Result<string>)
    ensures r.Ok? <==> Serializable(j)
    ensures r.Ok? ==> r.value == p.emit(j)
  {
    if Serializable(j) then Ok(p.emit(j)) else Err(TypeError("Object is not JSON serializable"))
  }
}
