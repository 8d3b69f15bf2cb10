/**
 * The identifier codec of data/helper.py.
 *
 * A stored integer id is shown as `hex(id)` with the "0x" removed, and a
 * short-url path segment is read back with `int(segment, base=36)`.  The two
 * bases differ, so the round trip holds only for ids with a single hex digit;
 * the lemmas at the end of this module state exactly where it holds and how
 * it fails everywhere else.
 */
module Codec {
  import opened Wrappers

  /** The ValueError that `int(s, base=36)` raises on text that is not a numeral. */
  datatype CodecError = ValueError

  predicate IsBase36Digit(c: char) {
    ('0' <= c <= '9') || ('a' <= c <= 'z') || ('A' <= c <= 'Z')
  }

  predicate IsLowerHexDigit(c: char) {
    ('0' <= c <= '9') || ('a' <= c <= 'f')
  }

  /** The value of one digit as `int` reads it: 0-9, then a-z (or A-Z) as 10-35. */
  function DigitValue(c: char): (d: nat)
    requires IsBase36Digit(c)
    ensures d < 36
    ensures IsLowerHexDigit(c) ==> d < 16
  {
    if '0' <= c <= '9' then c as int - '0' as int
    else if 'a' <= c <= 'z' then c as int - 'a' as int + 10
    else c as int - 'A' as int + 10
  }

  /** The lowercase digit `hex` prints for a value below 16. */
  function HexChar(d: nat): (c: char)
    requires d < 16
    ensures IsLowerHexDigit(c) && DigitValue(c) == d
  {
    if d < 10 then ('0' as int + d) as char else ('a' as int + d - 10) as char
  }

  predicate AllDigits(s: string) {
    forall i :: 0 <= i < |s| ==> IsBase36Digit(s[i])
  }

  predicate AllLowerHex(s: string) {
    forall i :: 0 <= i < |s| ==> IsLowerHexDigit(s[i])
  }

  /** The positional value of a digit string in `base`, most significant digit first. */
  function ValueIn(base: nat, s: string): nat
    requires AllDigits(s)
  {
    if s == [] then 0 else ValueIn(base, s[..|s| - 1]) * base + DigitValue(s[|s| - 1])
  }

  /** The digits `hex(n)` prints after its "0x" prefix: lowercase, no leading zeros. */
  function HexDigits(n: nat): (s: string)
    ensures |s| >= 1
    ensures AllLowerHex(s)
    decreases n
  {
    if n < 16 then [HexChar(n)] else HexDigits(n / 16) + [HexChar(n % 16)]
  }

  /** convert_integer_id: `hex(urlId).replace("0x", "")`; a negative id keeps its minus sign. */
  function ConvertIntegerId(urlId: int): string {
    if urlId < 0 then "-" + HexDigits(-urlId) else HexDigits(urlId)
  }

  /** A numeral `int(s, 36)` accepts: one or more of 0-9, a-z, A-Z. */
  predicate IsNumeral(s: string) {
    |s| > 0 && AllDigits(s)
  }

  predicate HasSign(s: string) {
    |s| > 0 && (s[0] == '+' || s[0] == '-')
  }

  /** convert_string_id: `int(s, base=36)`, an optional sign followed by a numeral. */
  function ConvertStringId(s: string): Result<int, CodecError> {
    if HasSign(s) then
      if IsNumeral(s[1..]) then
        var v: int := ValueIn(36, s[1..]);
        Success(if s[0] == '-' then -v else v)
      else
        Failure(ValueError)
    else if IsNumeral(s) then
      Success(ValueIn(36, s))
    else
      Failure(ValueError)
  }

  function LowerChar(c: char): char {
    if 'A' <= c <= 'Z' then (c as int - 'A' as int + 'a' as int) as char else c
  }

  function LowerAscii(s: string): (t: string)
    ensures |t| == |s|
    ensures forall i :: 0 <= i < |s| ==> t[i] == LowerChar(s[i])
  {
    seq(|s|, i requires 0 <= i < |s| => LowerChar(s[i]))
  }

  /** The base-36 numeral of n, lowercase with no leading zeros: what `int(_, 36)` inverts. */
  function Base36Digits(n: nat): (s: string)
    ensures IsNumeral(s)
    decreases n
  {
    if n < 36 then [Base36Char(n)] else Base36Digits(n / 36) + [Base36Char(n % 36)]
  }

  function Base36Char(d: nat): (c: char)
    requires d < 36
    ensures IsBase36Digit(c) && DigitValue(c) == d
  {
    if d < 10 then ('0' as int + d) as char else ('a' as int + d - 10) as char
  }

  // ---------------------------------------------------------------------------
  // convert_integer_id

  /** The hex digits denote n in base 16. */
  lemma {:induction false} HexDigitsValue(n: nat)
    ensures ValueIn(16, HexDigits(n)) == n
    decreases n
  {
    if n >= 16 {
      var s := HexDigits(n);
      assert s[..|s| - 1] == HexDigits(n / 16);
      HexDigitsValue(n / 16);
    }
  }

  /** Only zero is written with a leading '0'. */
  lemma {:induction false} HexDigitsLeadingZero(n: nat)
    ensures HexDigits(n)[0] == '0' <==> n == 0
    decreases n
  {
    if n >= 16 {
      HexDigitsLeadingZero(n / 16);
    }
  }

  /**
   * For n >= 0, convert_integer_id(n) is the canonical lowercase base-16
   * numeral of n: non-empty, only 0-9a-f, no prefix, no leading zeros, and
   * "0" for zero.
   */
  lemma ConvertIntegerIdIsHexNumeral(n: nat)
    ensures var s := ConvertIntegerId(n);
      && |s| >= 1
      && AllLowerHex(s)
      && (|s| > 1 ==> s[0] != '0')
      && ValueIn(16, s) == n
      && (n == 0 <==> s == "0")
  {
    HexDigitsValue(n);
    HexDigitsLeadingZero(n);
  }

  /** convert_integer_id never maps two ids to the same text. */
  lemma ConvertIntegerIdInjective(a: int, b: int)
    requires ConvertIntegerId(a) == ConvertIntegerId(b)
    ensures a == b
  {
    var s := ConvertIntegerId(a);
    assert b >= 0 ==> IsLowerHexDigit(ConvertIntegerId(b)[0]);
    assert a >= 0 ==> IsLowerHexDigit(ConvertIntegerId(a)[0]);
    if a < 0 {
      assert b < 0;
      assert HexDigits(-a) == s[1..] == HexDigits(-b);
      HexDigitsValue(-a);
      HexDigitsValue(-b);
    } else {
      assert b >= 0;
      HexDigitsValue(a);
      HexDigitsValue(b);
    }
  }

  // ---------------------------------------------------------------------------
  // convert_string_id

  /** A digit string read in base 36: its positional value. */
  lemma ConvertStringIdOfNumeral(s: string)
    requires IsNumeral(s)
    ensures ConvertStringId(s) == Success(ValueIn(36, s))
  {
  }

  /** The ValueError cases: empty text, a lone sign, or any character outside 0-9a-zA-Z. */
  lemma ConvertStringIdFails(s: string)
    ensures ConvertStringId(s).Failure? <==>
      (s == [] || (HasSign(s) && |s| == 1)
       || exists i :: (if HasSign(s) then 1 else 0) <= i < |s| && !IsBase36Digit(s[i]))
  {
  }

  lemma {:induction false} ValueInLower(base: nat, s: string)
    requires AllDigits(s)
    ensures AllDigits(LowerAscii(s))
    ensures ValueIn(base, LowerAscii(s)) == ValueIn(base, s)
    decreases |s|
  {
    if s != [] {
      var p := s[..|s| - 1];
      assert LowerAscii(s)[..|s| - 1] == LowerAscii(p);
      ValueInLower(base, p);
    }
  }

  /** `int(_, 36)` ignores the case of letters: "A" and "a" both read as 10. */
  lemma ConvertStringIdCaseInsensitive(s: string)
    ensures ConvertStringId(LowerAscii(s)) == ConvertStringId(s)
  {
    var t := LowerAscii(s);
    assert forall i :: 0 <= i < |s| ==> (IsBase36Digit(t[i]) <==> IsBase36Digit(s[i]));
    assert HasSign(t) <==> HasSign(s);
    if HasSign(s) {
      assert t[1..] == LowerAscii(s[1..]);
      if AllDigits(s[1..]) {
        ValueInLower(36, s[1..]);
      } else {
        var j :| 0 <= j < |s[1..]| && !IsBase36Digit(s[1..][j]);
        assert !IsBase36Digit(t[1..][j]);
      }
    } else if AllDigits(s) {
      ValueInLower(36, s);
    }
  }

  lemma {:induction false} Base36DigitsValue(n: nat)
    ensures ValueIn(36, Base36Digits(n)) == n
    decreases n
  {
    if n >= 36 {
      var s := Base36Digits(n);
      assert s[..|s| - 1] == Base36Digits(n / 36);
      Base36DigitsValue(n / 36);
    }
  }

  /** convert_string_id is a left inverse of the base-36 numeral: it really reads base 36. */
  lemma ConvertStringIdInvertsBase36(n: nat)
    ensures ConvertStringId(Base36Digits(n)) == Success(n)
  {
    Base36DigitsValue(n);
    ConvertStringIdOfNumeral(Base36Digits(n));
  }

  // ---------------------------------------------------------------------------
  // The round trip convert_string_id(convert_integer_id(n))

  /** A hex numeral read in base 36 is worth at least as much as in base 16. */
  lemma {:induction false} Base36AtLeastBase16(s: string)
    requires AllLowerHex(s)
    ensures AllDigits(s) && ValueIn(36, s) >= ValueIn(16, s)
    decreases |s|
  {
    if s != [] {
      var p := s[..|s| - 1];
      Base36AtLeastBase16(p);
      assert ValueIn(36, p) * 36 >= ValueIn(16, p) * 36;
    }
  }

  /** Decoding the text of n >= 16 overshoots: (n / 16) * 36 + n % 16 at least. */
  lemma {:induction false} HexReadAsBase36Overshoots(n: nat)
    requires n >= 16
    ensures ValueIn(36, HexDigits(n)) > n
  {
    var s := HexDigits(n);
    var p := s[..|s| - 1];
    assert p == HexDigits(n / 16);
    HexDigitsValue(n / 16);
    Base36AtLeastBase16(p);
    assert ValueIn(36, s) == ValueIn(36, p) * 36 + n % 16;
    assert ValueIn(36, p) * 36 >= (n / 16) * 36;
  }

  /** The text of any id decodes successfully, to the base-36 reading of its hex digits. */
  lemma DecodeOfEncode(n: int)
    ensures AllDigits(HexDigits(if n < 0 then -n else n))
    ensures ConvertStringId(ConvertIntegerId(n)).Success?
    ensures ConvertStringId(ConvertIntegerId(n)).value ==
      if n < 0 then 0 - ValueIn(36, HexDigits(-n)) else ValueIn(36, HexDigits(n))
  {
  }

  /** The round trip holds exactly for the ids with a single hex digit. */
  lemma RoundTripExactlyBelow16(n: int)
    ensures ConvertStringId(ConvertIntegerId(n)) == Success(n) <==> -16 < n < 16
  {
    DecodeOfEncode(n);
    var m := if n < 0 then -n else n;
    if m >= 16 {
      HexReadAsBase36Overshoots(m);
    } else {
      assert HexDigits(m)[..0] == [];
    }
  }

  /** For every id n >= 16 the round trip lands on a strictly larger id. */
  lemma RoundTripOvershoots(n: int)
    requires n >= 16
    ensures ConvertStringId(ConvertIntegerId(n)).Success?
    ensures ConvertStringId(ConvertIntegerId(n)).value > n
  {
    DecodeOfEncode(n);
    HexReadAsBase36Overshoots(n);
  }

  /** Id 16 is shown as "10", and "10" resolves to id 36. */
  lemma SixteenBecomesThirtySix()
    ensures ConvertIntegerId(16) == "10"
    ensures ConvertStringId("10") == Success(36)
  {
    assert "10"[..1] == "1";
    assert "1"[..0] == [];
  }
}
