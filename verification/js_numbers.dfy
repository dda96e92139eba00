/** The JavaScript string-to-number conversions the frontend relies on:
    `parseFloat`, `parseInt` without a radix, and `Number(s)`. Numbers are
    exact: a finite result is the real number the text denotes, without the
    rounding to a double. */
module JsNumbers {
  import opened Text

  datatype JsNum = NaN | Num(value: real) | PosInf | NegInf

  /** `n > 0`; NaN compares false with everything. */
  predicate Positive(n: JsNum)
  {
    (n.Num? && n.value > 0.0) || n.PosInf?
  }

  // ---------------------------------------------------------------------
  // Digits in a radix
  // ---------------------------------------------------------------------

  /** The value of `c` as a digit in radixes up to 36, or 36 when it is not
      a digit at all. */
  function DigitOf(c: char): (d: nat)
    ensures d <= 36
  {
    if '0' <= c <= '9' then c as int - '0' as int
    else if 'a' <= c <= 'z' then c as int - 'a' as int + 10
    else if 'A' <= c <= 'Z' then c as int - 'A' as int + 10
    else 36
  }

  predicate IsRadixDigit(c: char, radix: nat)
  {
    DigitOf(c) < radix
  }

  lemma DecimalDigitOf(c: char)
    ensures IsRadixDigit(c, 10) <==> IsDigit(c)
    ensures IsDigit(c) ==> DigitOf(c) == DigitValue(c)
  {
  }

  predicate AllRadixDigits(s: string, radix: nat)
  {
    forall k :: 0 <= k < |s| ==> IsRadixDigit(s[k], radix)
  }

  /** The value of a string of digits in `radix`, the most significant first. */
  function RadixValue(s: string, radix: nat): nat
    requires AllRadixDigits(s, radix)
  {
    if |s| == 0 then 0 else RadixValue(s[..|s| - 1], radix) * radix + DigitOf(s[|s| - 1])
  }

  /** In radix 10 the value is the usual decimal value. */
  lemma {:induction false} RadixTenIsDecimal(s: string)
    requires AllDigits(s)
    ensures AllRadixDigits(s, 10) && RadixValue(s, 10) == DigitsValue(s)
  {
    if |s| > 0 {
      RadixTenIsDecimal(s[..|s| - 1]);
    }
  }

  /** The number of digits of `radix` in `s` from position `i` on. */
  function RadixRun(s: string, i: nat, radix: nat): (n: nat)
    requires i <= |s|
    ensures i + n <= |s|
    ensures i + n == |s| || !IsRadixDigit(s[i + n], radix)
    decreases |s| - i
  {
    if i < |s| && IsRadixDigit(s[i], radix) then 1 + RadixRun(s, i + 1, radix) else 0
  }

  lemma {:induction false} RadixRunDigits(s: string, i: nat, radix: nat)
    requires i <= |s|
    ensures AllRadixDigits(s[i..i + RadixRun(s, i, radix)], radix)
    decreases |s| - i
  {
    if i < |s| && IsRadixDigit(s[i], radix) {
      RadixRunDigits(s, i + 1, radix);
      var n := RadixRun(s, i, radix);
      assert s[i..i + n] == [s[i]] + s[i + 1..i + n];
    }
  }

  /** A run over a string made only of digits reaches its end. */
  lemma {:induction false} RadixRunWhole(s: string, i: nat, radix: nat)
    requires i <= |s| && AllRadixDigits(s[i..], radix)
    ensures RadixRun(s, i, radix) == |s| - i
    decreases |s| - i
  {
    if i < |s| {
      assert s[i] == s[i..][0];
      assert s[i + 1..] == s[i..][1..];
      RadixRunWhole(s, i + 1, radix);
    }
  }

  function DigitRun(s: string, i: nat): (n: nat)
    requires i <= |s|
    ensures i + n <= |s| && AllDigits(s[i..i + n])
    ensures i + n == |s| || !IsDigit(s[i + n])
  {
    var n := RadixRun(s, i, 10);
    RadixRunDigits(s, i, 10);
    n
  }

  /** A run of digits followed by a non-digit (or the end) has that length. */
  lemma {:induction false} RadixRunExact(s: string, i: nat, n: nat, radix: nat)
    requires i + n <= |s|
    requires forall k :: i <= k < i + n ==> IsRadixDigit(s[k], radix)
    requires i + n == |s| || !IsRadixDigit(s[i + n], radix)
    ensures RadixRun(s, i, radix) == n
    decreases n
  {
    if n > 0 {
      RadixRunExact(s, i + 1, n - 1, radix);
    }
  }

  lemma DigitRunExact(s: string, i: nat, n: nat)
    requires i + n <= |s| && AllDigits(s[i..i + n])
    requires i + n == |s| || !IsDigit(s[i + n])
    ensures DigitRun(s, i) == n
  {
    forall k | i <= k < i + n
      ensures IsRadixDigit(s[k], 10)
    {
      assert s[i..i + n][k - i] == s[k];
      DecimalDigitOf(s[k]);
    }
    if i + n < |s| { DecimalDigitOf(s[i + n]); }
    RadixRunExact(s, i, n, 10);
  }

  // ---------------------------------------------------------------------
  // Decimal literals
  // ---------------------------------------------------------------------

  /** A decimal literal: `±mantissa × 10^scale`, or an infinity. */
  datatype Decimal = Finite(negative: bool, mantissa: nat, scale: int) | Infinite(negative: bool)

  function Scale(m: nat, scale: int): real
  {
    if scale >= 0 then (m * Pow10(scale)) as real else m as real / Pow10(-scale) as real
  }

  function DecimalValue(d: Decimal): (n: JsNum)
    ensures !n.NaN?
  {
    match d
    case Infinite(negative) => if negative then NegInf else PosInf
    case Finite(negative, m, scale) => Num(if negative then -Scale(m, scale) else Scale(m, scale))
  }

  /** The length of an exponent part `e[+-]digits` at position `i` of `s`,
      0 when there is none, and its value. */
  function Exponent(s: string, i: nat): (r: (nat, int))
    requires i <= |s|
    ensures i + r.0 <= |s|
  {
    if i < |s| && (s[i] == 'e' || s[i] == 'E') then
      var signed := i + 1 < |s| && (s[i + 1] == '+' || s[i + 1] == '-');
      var j := if signed then i + 2 else i + 1;
      var d := DigitRun(s, j);
      if d == 0 then (0, 0)
      else
        var v: int := DigitsValue(s[j..j + d]);
        (j + d - i, if signed && s[i + 1] == '-' then -v else v)
    else (0, 0)
  }

  /** `u` starts with the word `Infinity`. */
  predicate StartsInfinity(u: string)
  {
    |u| >= 8 && u[..8] == "Infinity"
  }

  lemma DigitNotInfinity(u: string)
    requires |u| > 0 && IsDigit(u[0])
    ensures !StartsInfinity(u)
  {
    if |u| >= 8 { assert u[..8][0] == u[0]; }
  }

  /** The longest prefix of `u` that is an unsigned decimal literal
      (`Infinity`, `digits[.digits][exponent]` or `.digits[exponent]`), as its
      length and its literal; the length is 0 when there is none. */
  function UnsignedPrefix(u: string, negative: bool): (r: (nat, Decimal))
    ensures r.0 <= |u|
    ensures r.0 == 0 <==>
              !StartsInfinity(u) && !(|u| > 0 && IsDigit(u[0]))
              && !(|u| > 1 && u[0] == '.' && IsDigit(u[1]))
  {
    if StartsInfinity(u) then (8, Infinite(negative))
    else
      var a := DigitRun(u, 0);
      var dot := a < |u| && u[a] == '.';
      var b := if dot then DigitRun(u, a + 1) else 0;
      if a == 0 && b == 0 then (0, Finite(negative, 0, 0))
      else
        var end := if dot then a + 1 + b else a;
        var digits := if dot then u[..a] + u[a + 1..end] else u[..a];
        assert AllDigits(digits) by {
          assert u[..a] == u[0..0 + a];
          if dot { assert u[a + 1..end] == u[a + 1..a + 1 + b]; }
        }
        var (e, exp) := Exponent(u, end);
        (end + e, Finite(negative, DigitsValue(digits), exp - b))
  }

  /** An unsigned literal with a fraction and no exponent:
      `digits.digits` followed by a character that cannot continue it. */
  lemma UnsignedPoint(s: string, a: nat, b: nat)
    requires 0 < a && 0 < b && a + 1 + b <= |s|
    requires AllDigits(s[..a]) && s[a] == '.' && AllDigits(s[a + 1..a + 1 + b])
    requires a + 1 + b == |s| || (!IsDigit(s[a + 1 + b]) && s[a + 1 + b] != 'e' && s[a + 1 + b] != 'E')
    ensures AllDigits(s[..a] + s[a + 1..a + 1 + b])
    ensures UnsignedPrefix(s, false) == (a + 1 + b, Finite(false, DigitsValue(s[..a] + s[a + 1..a + 1 + b]), -(b as int)))
  {
    assert s[..a][0] == s[0];
    DigitNotInfinity(s);
    assert s[0..0 + a] == s[..a];
    DigitRunExact(s, 0, a);
    DigitRunExact(s, a + 1, b);
    assert Exponent(s, a + 1 + b) == (0, 0);
  }

  /** The longest prefix of `s` that is a decimal literal with an optional
      sign. */
  function DecimalPrefix(s: string): (r: (nat, Decimal))
    ensures r.0 <= |s|
  {
    var signed := |s| > 0 && (s[0] == '+' || s[0] == '-');
    var u := if signed then s[1..] else s;
    var (n, d) := UnsignedPrefix(u, signed && s[0] == '-');
    if n == 0 then (0, d) else (n + (if signed then 1 else 0), d)
  }

  /** `s` (after its leading white space) starts like a number: an optional
      sign and then a digit, a '.' and a digit, or `Infinity`. */
  predicate NumericStart(t: string)
  {
    var u := if |t| > 0 && (t[0] == '+' || t[0] == '-') then t[1..] else t;
    StartsInfinity(u) || (|u| > 0 && IsDigit(u[0])) || (|u| > 1 && u[0] == '.' && IsDigit(u[1]))
  }

  // ---------------------------------------------------------------------
  // The conversions
  // ---------------------------------------------------------------------

  /** `parseFloat(s)`: the longest decimal literal after the leading white
      space; NaN when there is none. */
  function ParseFloat(s: string): (n: JsNum)
    ensures n.NaN? <==> !NumericStart(JsTrimStart(s))
  {
    var (len, d) := DecimalPrefix(JsTrimStart(s));
    if len == 0 then NaN else DecimalValue(d)
  }

  /** `parseInt(s)` without a radix: after the white space and an optional
      sign, a `0x`/`0X` prefix selects radix 16, anything else radix 10; the
      result is the longest run of digits, NaN when it is empty. */
  function ParseInt(s: string): (n: JsNum)
    ensures n.Num? || n.NaN?
  {
    var t := JsTrimStart(s);
    var signed := |t| > 0 && (t[0] == '+' || t[0] == '-');
    var u := if signed then t[1..] else t;
    var hex := |u| >= 2 && u[0] == '0' && (u[1] == 'x' || u[1] == 'X');
    var v := if hex then u[2..] else u;
    var radix := if hex then 16 else 10;
    if RadixRun(v, 0, radix) == 0 then NaN
    else
      var m := RunValue(v, radix) as real;
      Num(if signed && t[0] == '-' then -m else m)
  }

  /** The value of the run of `radix` digits that `v` starts with. */
  function RunValue(v: string, radix: nat): nat
  {
    var n := RadixRun(v, 0, radix);
    RadixRunDigits(v, 0, radix);
    assert v[0..n] == v[..n];
    RadixValue(v[..n], radix)
  }

  /** The radix a `0x`, `0o` or `0b` prefix (either case) selects, or 0. */
  function PrefixRadix(t: string): (radix: nat)
    ensures radix == 0 || radix == 2 || radix == 8 || radix == 16
  {
    if |t| >= 2 && t[0] == '0' then
      if t[1] == 'x' || t[1] == 'X' then 16
      else if t[1] == 'o' || t[1] == 'O' then 8
      else if t[1] == 'b' || t[1] == 'B' then 2
      else 0
    else 0
  }

  /** `Number(s)`: the whole string, white space aside, must be one numeric
      literal; white space alone is 0. */
  function NumberOf(s: string): (n: JsNum)
    ensures JsTrim(s) == [] ==> n == Num(0.0)
  {
    var t := JsTrim(s);
    var radix := PrefixRadix(t);
    if t == [] then Num(0.0)
    else if radix != 0 && |t| > 2 && AllRadixDigits(t[2..], radix) then Num(RadixValue(t[2..], radix) as real)
    else
      var (len, d) := DecimalPrefix(t);
      if len == |t| then DecimalValue(d) else NaN
  }

  // ---------------------------------------------------------------------
  // Properties
  // ---------------------------------------------------------------------

  /** Text starting with a digit is read by `parseFloat` as its unsigned
      literal. */
  lemma ParseFloatUnsigned(s: string)
    requires |s| > 0 && IsDigit(s[0])
    ensures UnsignedPrefix(s, false).0 > 0
    ensures ParseFloat(s) == DecimalValue(UnsignedPrefix(s, false).1)
  {
    JsTrimStartOfDigit(s);
    assert DecimalPrefix(s) == UnsignedPrefix(s, false);
  }

  /** `parseFloat` reads leading digits and ignores whatever follows them
      when it cannot continue a number. */
  lemma ParseFloatDigitsThen(digits: string, rest: string)
    requires |digits| > 0 && AllDigits(digits)
    requires |rest| > 0 ==> !IsDigit(rest[0]) && rest[0] != '.' && rest[0] != 'e' && rest[0] != 'E'
    ensures ParseFloat(digits + rest) == Num(DigitsValue(digits) as real)
  {
    var s := digits + rest;
    DigitsThenPrefix(digits, rest, s);
    ParseFloatUnsigned(s);
  }

  lemma DigitsThenPrefix(digits: string, rest: string, s: string)
    requires |digits| > 0 && AllDigits(digits)
    requires |rest| > 0 ==> !IsDigit(rest[0]) && rest[0] != '.' && rest[0] != 'e' && rest[0] != 'E'
    requires s == digits + rest
    ensures IsDigit(s[0])
    ensures UnsignedPrefix(s, false) == (|digits|, Finite(false, DigitsValue(digits), 0))
  {
    var a := |digits|;
    assert s[..a] == digits;
    assert a < |s| ==> s[a] == rest[0];
    UnsignedInteger(s, a);
  }

  /** An unsigned literal of digits alone, followed by a character that
      cannot continue it. */
  lemma UnsignedInteger(s: string, a: nat)
    requires 0 < a <= |s| && AllDigits(s[..a])
    requires a < |s| ==> !IsDigit(s[a]) && s[a] != '.' && s[a] != 'e' && s[a] != 'E'
    ensures IsDigit(s[0])
    ensures UnsignedPrefix(s, false) == (a, Finite(false, DigitsValue(s[..a]), 0))
  {
    assert s[..a][0] == s[0];
    DigitNotInfinity(s);
    assert s[0..0 + a] == s[..a];
    DigitRunExact(s, 0, a);
    assert Exponent(s, a) == (0, 0);
  }

  /** A run of decimal digits is read back as its value by `parseFloat`. */
  lemma ParseFloatOfDigits(s: string)
    requires |s| > 0 && AllDigits(s)
    ensures ParseFloat(s) == Num(DigitsValue(s) as real)
  {
    JsTrimStartOfDigit(s);
    DigitsPrefix(s);
  }

  lemma JsTrimStartOfDigit(s: string)
    requires |s| > 0 && IsDigit(s[0])
    ensures JsTrimStart(s) == s
  {
  }

  /** The unsigned literal of a string of digits is the whole string. */
  lemma DigitsPrefix(s: string)
    requires |s| > 0 && AllDigits(s)
    ensures DecimalPrefix(s) == (|s|, Finite(false, DigitsValue(s), 0))
  {
    assert !(|s| > 0 && (s[0] == '+' || s[0] == '-'));
    UnsignedDigits(s, false);
  }

  lemma UnsignedDigits(u: string, negative: bool)
    requires |u| > 0 && AllDigits(u)
    ensures UnsignedPrefix(u, negative) == (|u|, Finite(negative, DigitsValue(u), 0))
  {
    DigitNotInfinity(u);
    WholeDigitRun(u);
    assert u[..|u|] == u;
    assert Exponent(u, |u|) == (0, 0);
  }

  lemma WholeDigitRun(u: string)
    requires AllDigits(u)
    ensures DigitRun(u, 0) == |u|
  {
    assert u[0..] == u;
    assert AllRadixDigits(u[0..], 10) by {
      forall k | 0 <= k < |u| ensures IsRadixDigit(u[k], 10) { DecimalDigitOf(u[k]); }
    }
    RadixRunWhole(u, 0, 10);
  }

  /** `parseFloat` and `Number` read the decimal rendering of a natural number
      back as that number. */
  lemma ParseNatToString(n: nat)
    ensures ParseFloat(NatToString(n)) == Num(n as real)
    ensures NumberOf(NatToString(n)) == Num(n as real)
  {
    NatToStringValue(n);
    ParseFloatOfDigits(NatToString(n));
    NumberOfDigits(NatToString(n));
  }

  /** `Number` reads a run of decimal digits as its value. */
  lemma NumberOfDigits(s: string)
    requires |s| > 0 && AllDigits(s)
    ensures NumberOf(s) == Num(DigitsValue(s) as real)
  {
    JsTrimOfDigits(s);
    assert PrefixRadix(s) == 0 by {
      if |s| >= 2 { assert IsDigit(s[1]); }
    }
    DigitsPrefix(s);
  }

  lemma JsTrimOfDigits(s: string)
    requires |s| > 0 && AllDigits(s)
    ensures JsTrim(s) == s
  {
    JsTrimStartOfDigit(s);
    assert !IsJsSpace(s[|s| - 1]);
  }

  /** `parseInt` reads a string of decimal digits as its value. */
  lemma ParseIntOfDigits(s: string)
    requires |s| > 0 && AllDigits(s)
    ensures ParseInt(s) == Num(DigitsValue(s) as real)
  {
    JsTrimStartOfDigit(s);
    assert !(|s| >= 2 && s[0] == '0' && (s[1] == 'x' || s[1] == 'X')) by {
      if |s| >= 2 { assert IsDigit(s[1]); }
    }
    assert AllRadixDigits(s[0..], 10) by {
      forall k | 0 <= k < |s[0..]| ensures IsRadixDigit(s[0..][k], 10) { DecimalDigitOf(s[k]); }
    }
    RadixRunWhole(s, 0, 10);
    assert s[..|s|] == s;
    RadixTenIsDecimal(s);
  }

  /** `parseInt` reads leading decimal digits and stops at the first
      character that is not one, unless a lone `0` and an `x` make a hex
      prefix. */
  lemma ParseIntDigitsThen(digits: string, rest: string)
    requires |digits| > 0 && AllDigits(digits)
    requires |rest| > 0 ==> !IsDigit(rest[0])
    requires |digits| == 1 && digits[0] == '0' && |rest| > 0 ==> rest[0] != 'x' && rest[0] != 'X'
    ensures ParseInt(digits + rest) == Num(DigitsValue(digits) as real)
  {
    var s := digits + rest;
    assert s[0] == digits[0];
    JsTrimStartOfDigit(s);
    assert !(|s| >= 2 && s[0] == '0' && (s[1] == 'x' || s[1] == 'X')) by {
      if |digits| >= 2 { assert s[1] == digits[1]; assert IsDigit(digits[1]); }
      else if |s| >= 2 { assert s[1] == rest[0]; }
    }
    assert s[0..0 + |digits|] == digits;
    assert |digits| < |s| ==> s[|digits|] == rest[0];
    DigitRunExact(s, 0, |digits|);
    assert s[..|digits|] == digits;
    RadixTenIsDecimal(digits);
  }

  /** A leading `0x` makes `parseInt` read hexadecimal digits. */
  lemma ParseIntHex(digits: string)
    requires |digits| > 0 && AllRadixDigits(digits, 16)
    ensures ParseInt("0x" + digits) == Num(RadixValue(digits, 16) as real)
  {
    var s := "0x" + digits;
    JsTrimStartOfDigit(s);
    assert s[2..] == digits;
    RadixRunWhole(digits, 0, 16);
    assert digits[..|digits|] == digits;
  }
}
