/** Validation helpers (utils/helpers.py). */
module Helpers {
  import opened Base
  import opened Text
  import opened Json
  import opened FormatUtils

  /** The characters `int()` trims around its text: ASCII whitespace, and
      the non-ASCII characters Python counts as whitespace, which `int()`
      reads as spaces. The ASCII separators U+001C to U+001F, whitespace to
      `str.isspace()`, are not trimmed. */
  predicate IsIntSpace(c: char)
  {
    var n := c as int;
    || IsAsciiSpace(c)
    || n == 0x85 || n == 0xA0 || n == 0x1680
    || 0x2000 <= n <= 0x200A
    || n == 0x2028 || n == 0x2029 || n == 0x202F || n == 0x205F || n == 0x3000
  }

  /** The text `int()` parses: `s` with the characters it trims removed from
      both ends. */
  function Strip(s: string): (r: string)
    ensures |r| <= |s|
    ensures r != [] ==> !IsIntSpace(r[0]) && !IsIntSpace(r[|r| - 1])
    decreases |s|
  {
    if s != [] && IsIntSpace(s[0]) then Strip(s[1..])
    else if s != [] && IsIntSpace(s[|s| - 1]) then Strip(s[..|s| - 1])
    else s
  }

  /** Hex digits, with single underscores allowed between two digits. */
  predicate DigitGroups(s: string)
  {
    && s != []
    && HexValue(s[0]).Some?
    && HexValue(s[|s| - 1]).Some?
    && (forall i | 0 <= i < |s| :: s[i] == '_' || HexValue(s[i]).Some?)
    && (forall i | 0 <= i < |s| - 1 :: s[i] == '_' ==> s[i + 1] != '_')
  }

  /** The text `int(s, 16)` accepts: surrounding whitespace, an optional sign,
      an optional `0x`/`0X` prefix (which may be followed by one
      underscore), then digit groups. */
  predicate ParsesAsHex(s: string)
  {
    var t := Strip(s);
    var u := if t != [] && (t[0] == '+' || t[0] == '-') then t[1..] else t;
    if |u| >= 2 && u[0] == '0' && (u[1] == 'x' || u[1] == 'X') then
      var v := u[2..];
      DigitGroups(v) || (v != [] && v[0] == '_' && DigitGroups(v[1..]))
    else DigitGroups(u)
  }

  /** `is_hex_string(data)`: True iff `int(data, 16)` parses, False when it
      raises ValueError. For a non-string `int` raises TypeError, which is not
      caught. */
  function IsHexString(data: Json): (r: Result<bool>)
    ensures r.Err? <==> !data.JStr?
    ensures data.JStr? ==> r == Ok(ParsesAsHex(data.s))
  {
    match data
    case JStr(s) => Ok(ParsesAsHex(s))
    case _ => Err(TypeError("int() can't convert non-string with explicit base"))
  }

  lemma {:induction false} StripKeeps(s: string, c: char)
    requires c in s && !IsIntSpace(c)
    ensures c in Strip(s)
    decreases |s|
  {
    if s != [] && IsIntSpace(s[0]) {
      assert c in s[1..];
      StripKeeps(s[1..], c);
    } else if s != [] && IsIntSpace(s[|s| - 1]) {
      assert c in s[..|s| - 1];
      StripKeeps(s[..|s| - 1], c);
    }
  }

  lemma {:induction false} StripNoSpace(s: string)
    requires forall i | 0 <= i < |s| :: !IsIntSpace(s[i])
    ensures Strip(s) == s
  {
  }

  /** A nonempty string of hex digits is a hex string. */
  lemma HexDigitsAccepted(s: string)
    requires s != [] && forall i | 0 <= i < |s| :: HexValue(s[i]).Some?
    ensures IsHexString(JStr(s)) == Ok(true)
  {
    StripNoSpace(s);
    assert HexValue(s[0]).Some?;
  }

  /** The empty string is not. */
  lemma EmptyRejected()
    ensures IsHexString(JStr("")) == Ok(false)
  {
  }

  /** Nor is any string holding a character that is neither trimmed
      whitespace, a hex digit, a sign, `x`/`X` nor `_`, such as 'g' or the
      separator U+001C. */
  lemma ForeignCharRejected(s: string, c: char)
    requires c in s
    requires !IsIntSpace(c) && HexValue(c).None?
    requires c != '+' && c != '-' && c != 'x' && c != 'X' && c != '_'
    ensures IsHexString(JStr(s)) == Ok(false)
  {
    StripKeeps(s, c);
    var t := Strip(s);
    var u := if t != [] && (t[0] == '+' || t[0] == '-') then t[1..] else t;
    assert c in u;
    var k :| 0 <= k < |u| && u[k] == c;
    if |u| >= 2 && u[0] == '0' && (u[1] == 'x' || u[1] == 'X') {
      var v := u[2..];
      assert k >= 2 by {
        assert HexValue(u[0]).Some?;
        assert u[1] != c;
      }
      assert v[k - 2] == c;
      NotDigitGroups(v, k - 2);
      if v != [] && v[0] == '_' {
        assert k >= 3 by { assert v[0] != c; }
        assert v[1..][k - 3] == c;
        NotDigitGroups(v[1..], k - 3);
      }
    } else {
      NotDigitGroups(u, k);
    }
  }

  lemma NotDigitGroups(s: string, k: nat)
    requires k < |s| && s[k] != '_' && HexValue(s[k]).None?
    ensures !DigitGroups(s)
  {

  }

  /** Unicode whitespace around the digits is trimmed: an ideographic space
      before and a no-break space after `ff` leave a hex string. */
  lemma UnicodeSpaceTrimmed()
    ensures IsHexString(JStr("\U{3000}ff\U{00A0}")) == Ok(true)
  {
    assert Strip("\U{3000}ff\U{00A0}") == "ff" by {
      assert "\U{3000}ff\U{00A0}"[1..] == "ff\U{00A0}";
      assert "ff\U{00A0}"[..2] == "ff";
    }
  }

  /** The separator U+001C is not trimmed, so `"\x1cff"` is not a hex
      string although `"\x1c".isspace()` holds. */
  lemma SeparatorNotTrimmed()
    ensures IsHexString(JStr("\U{001C}ff")) == Ok(false)
  {
    ForeignCharRejected("\U{001C}ff", '\U{001C}');
  }

  /** `is_valid_amount(amount)`: an int (Python's `bool` is one) that is not
      negative. */
  function IsValidAmount(amount: Json): (r: bool)
    ensures r <==> (amount.JInt? && amount.i >= 0) || amount.JBool?
  {
    match amount
    case JInt(i) => i >= 0
    case JBool(_) => true
    case _ => false
  }

  lemma ZeroIsValidAmount()
    ensures IsValidAmount(JInt(0))
  {
  }

  lemma NegativeIsInvalidAmount(i: int)
    requires i < 0
    ensures !IsValidAmount(JInt(i))
  {
  }
}
