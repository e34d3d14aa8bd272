/**
 * JavaScript's global `parseInt(string, radix)` for the two ways the
 * extensions call it: without a radix (a "0x"/"0X" prefix then selects
 * hexadecimal) and with radix 10. The result is the integer value, or
 * `None` for NaN. Integers are unbounded here; JavaScript rounds values
 * beyond 2^53.
 */
module JsParse {

  import opened Base
  import opened Strings

  datatype Radix = Unspecified | Ten

  /** The white-space and line-terminator code points `parseInt` skips at the start. */
  predicate IsJsSpace(c: char)
  {
    c == ' ' || c == '\t' || c == '\n' || c == '\r' || c == '\U{000B}' || c == '\U{000C}'
    || c == '\U{00A0}' || c == '\U{1680}' || ('\U{2000}' <= c <= '\U{200A}')
    || c == '\U{2028}' || c == '\U{2029}' || c == '\U{202F}' || c == '\U{205F}'
    || c == '\U{3000}' || c == '\U{FEFF}'
  }

  function TrimStart(s: string): (t: string)
    ensures |t| <= |s| && t == s[|s| - |t|..]
    ensures |t| > 0 ==> !IsJsSpace(t[0])
    ensures (|s| > 0 && !IsJsSpace(s[0])) ==> t == s
    decreases |s|
  {
    if |s| > 0 && IsJsSpace(s[0]) then TrimStart(s[1..]) else s
  }

  /** The value of `c` as a digit in base `radix` (10 or 16), when it is one. */
  function DigitIn(c: char, radix: nat): Option<nat>
  {
    if '0' <= c <= '9' then Some(DigitValue(c))
    else if radix == 16 && 'a' <= c <= 'f' then Some(c as int - 'a' as int + 10)
    else if radix == 16 && 'A' <= c <= 'F' then Some(c as int - 'A' as int + 10)
    else None
  }

  /** Length of the longest prefix of `s` made of digits of base `radix`. */
  function DigitRun(s: string, radix: nat): (n: nat)
    ensures n <= |s|
    ensures forall i :: 0 <= i < n ==> DigitIn(s[i], radix).Some?
    ensures n < |s| ==> DigitIn(s[n], radix).None?
    decreases |s|
  {
    if |s| > 0 && DigitIn(s[0], radix).Some? then 1 + DigitRun(s[1..], radix) else 0
  }

  function RadixValue(s: string, radix: nat): nat
    requires forall i :: 0 <= i < |s| ==> DigitIn(s[i], radix).Some?
    decreases |s|
  {
    if |s| == 0 then 0
    else RadixValue(s[..|s| - 1], radix) * radix + DigitIn(s[|s| - 1], radix).value
  }

  predicate HasHexPrefix(s: string)
  {
    |s| >= 2 && s[0] == '0' && (s[1] == 'x' || s[1] == 'X')
  }

  /** Removes one leading sign; the flag says whether it was '-'. */
  function StripSign(t: string): (r: (bool, string))
    ensures r.1 == (if |t| > 0 && (t[0] == '-' || t[0] == '+') then t[1..] else t)
    ensures r.0 <==> |t| > 0 && t[0] == '-'
  {
    if |t| > 0 && (t[0] == '-' || t[0] == '+') then (t[0] == '-', t[1..]) else (false, t)
  }

  /** The unsigned part: an optional hexadecimal prefix, then the longest run of digits. */
  function ParseMagnitude(u: string, radix: Radix): Option<nat>
  {
    var hex := radix == Unspecified && HasHexPrefix(u);
    var base := if hex then 16 else 10;
    var digits := if hex then u[2..] else u;
    var n := DigitRun(digits, base);
    if n == 0 then None else Some(RadixValue(digits[..n], base))
  }

  /** The signed result: NaN stays NaN, a leading '-' negates the magnitude. */
  function Signed(negative: bool, magnitude: Option<nat>): (r: Option<int>)
    ensures r.None? <==> magnitude.None?
  {
    if magnitude.None? then None
    else if negative then Some(-(magnitude.value as int))
    else Some(magnitude.value)
  }

  /** `parseInt(s)` (radix `Unspecified`) or `parseInt(s, 10)` (radix `Ten`); `None` is NaN. */
  function ParseInt(s: string, radix: Radix): Option<int>
  {
    var signed := StripSign(TrimStart(s));
    Signed(signed.0, ParseMagnitude(signed.1, radix))
  }

  lemma {:induction false} RadixValueDecimal(s: string)
    requires AllDigits(s)
    ensures forall i :: 0 <= i < |s| ==> DigitIn(s[i], 10).Some?
    ensures RadixValue(s, 10) == DecimalValue(s)
    decreases |s|
  {
    if |s| > 0 {
      RadixValueDecimal(s[..|s| - 1]);
    }
  }

  lemma {:induction false} DigitRunOfDigits(s: string, radix: nat)
    requires forall i :: 0 <= i < |s| ==> DigitIn(s[i], radix).Some?
    ensures DigitRun(s, radix) == |s|
    decreases |s|
  {
    if |s| > 0 {
      DigitRunOfDigits(s[1..], radix);
    }
  }

  lemma MagnitudeOfDigits(s: string, radix: Radix)
    requires |s| >= 1 && AllDigits(s)
    ensures ParseMagnitude(s, radix) == Some(DecimalValue(s))
  {
    assert !HasHexPrefix(s);
    RadixValueDecimal(s);
    DigitRunOfDigits(s, 10);
    assert s[..|s|] == s;
  }

  /** A plain run of decimal digits parses to its decimal value, under either radix. */
  lemma ParseDigits(s: string, radix: Radix)
    requires |s| >= 1 && AllDigits(s)
    ensures ParseInt(s, radix) == Some(DecimalValue(s))
  {
    assert !IsJsSpace(s[0]);
    assert StripSign(TrimStart(s)) == (false, s);
    MagnitudeOfDigits(s, radix);
  }

  /** The digit run stops where the digits of `a` end when `b` does not start with one. */
  lemma {:induction false} DigitRunStops(a: string, b: string, radix: nat)
    requires forall i :: 0 <= i < |a| ==> DigitIn(a[i], radix).Some?
    requires |b| == 0 || DigitIn(b[0], radix).None?
    ensures DigitRun(a + b, radix) == |a|
    decreases |a|
  {
    if |a| > 0 {
      assert (a + b)[1..] == a[1..] + b;
      DigitRunStops(a[1..], b, radix);
    } else {
      assert a + b == b;
    }
  }

  /**
   * `parseInt` reads the longest decimal prefix and ignores what follows it,
   * so `parseInt("80abc")` is 80.
   */
  lemma MagnitudeOfDigitPrefix(digits: string, rest: string, radix: Radix)
    requires |digits| >= 1 && AllDigits(digits)
    requires |rest| == 0 || !IsDigit(rest[0])
    requires radix == Unspecified ==> !HasHexPrefix(digits + rest)
    ensures ParseMagnitude(digits + rest, radix) == Some(DecimalValue(digits))
  {
    var s := digits + rest;
    RadixValueDecimal(digits);
    DigitRunStops(digits, rest, 10);
    assert s[..|digits|] == digits;
  }

  lemma ParseDigitPrefix(digits: string, rest: string, radix: Radix)
    requires |digits| >= 1 && AllDigits(digits)
    requires |rest| == 0 || !IsDigit(rest[0])
    requires radix == Unspecified ==> !HasHexPrefix(digits + rest)
    ensures ParseInt(digits + rest, radix) == Some(DecimalValue(digits))
  {
    var s := digits + rest;
    assert s[0] == digits[0] && IsDigit(s[0]);
    assert !IsJsSpace(s[0]);
    assert TrimStart(s) == s;
    assert StripSign(s) == (false, s);
    MagnitudeOfDigitPrefix(digits, rest, radix);
  }

  /** Text made of a minus sign and decimal digits of value `v` parses to `-v`. */
  lemma ParseMinusDigits(s: string, digits: string, v: nat, radix: Radix)
    requires |digits| >= 1 && AllDigits(digits) && DecimalValue(digits) == v
    requires |s| > 0 && s[0] == '-' && s[1..] == digits
    ensures ParseInt(s, radix) == Some(-(v as int))
  {
    assert TrimStart(s) == s;
    assert StripSign(s) == (true, digits);
    MagnitudeOfDigits(digits, radix);
  }

  /** `parseInt` reads back what `String(i)` prints for an integer `i`. */
  lemma ParseIntToString(i: int, radix: Radix)
    ensures ParseInt(IntToString(i), radix) == Some(i)
  {
    var s := IntToString(i);
    if i < 0 {
      var digits := NatToString(-i);
      assert s[0] == '-' && s[1..] == digits;
      DecimalOfNatToString(-i);
      ParseMinusDigits(s, digits, -i, radix);
    } else {
      DecimalOfNatToString(i);
      ParseDigits(s, radix);
    }
  }
}
