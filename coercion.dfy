/**
 * JavaScript's loose equality `==` between two results of the password hash
 * helper, each a string or `false` (`None`). Two strings are equal only when
 * identical and `false == false`; between `false` and a string, `==`
 * converts both to numbers, so `false` equals every string whose numeric
 * value is zero: the empty or all-white-space string, "0", "-0.0e3",
 * "0x00", and decimal literals too small to be represented, such as "1e-400".
 */
module Coercion {
  import opened Records
  import opened Validate

  predicate IsDigit(c: char) {
    '0' <= c <= '9'
  }

  predicate AllDigits(s: string) {
    forall k | 0 <= k < |s| :: IsDigit(s[k])
  }

  predicate AllZeros(s: string) {
    forall k | 0 <= k < |s| :: s[k] == '0'
  }

  function Pow(b: nat, e: nat): nat {
    if e == 0 then 1 else b * Pow(b, e - 1)
  }

  /** The value of a string of decimal digits. */
  function DigitsValue(s: string): (n: nat)
    requires AllDigits(s)
    ensures n == 0 <==> AllZeros(s)
  {
    if s == [] then 0
    else
      var last := s[|s| - 1] as int - '0' as int;
      var front := DigitsValue(s[..|s| - 1]);
      assert AllZeros(s) <==> AllZeros(s[..|s| - 1]) && last == 0 by {
        if AllZeros(s[..|s| - 1]) && last == 0 {
          forall k | 0 <= k < |s| ensures s[k] == '0' {
            if k < |s| - 1 {
              assert s[k] == s[..|s| - 1][k];
            }
          }
        }
      }
      10 * front + last
  }

  /** The position of the first `c` or `d` in `s`, or `|s|` when there is none. */
  function FirstOf(s: string, c: char, d: char): (i: nat)
    ensures i <= |s|
    ensures i < |s| ==> s[i] == c || s[i] == d
    ensures forall k | 0 <= k < i :: s[k] != c && s[k] != d
  {
    if s == [] then 0
    else if s[0] == c || s[0] == d then 0
    else 1 + FirstOf(s[1..], c, d)
  }

  /** The exponent of a decimal literal: optional sign, then at least one digit. */
  function Exponent(s: string): (e: Option<int>)
    ensures e.Some? ==> s != []
    ensures e.Some? && s[0] != '-' && s[0] != '+' ==> AllDigits(s) && e.value == DigitsValue(s)
  {
    if s == [] then None
    else if s[0] == '+' || s[0] == '-' then
      var digits := s[1..];
      if digits == [] || !AllDigits(digits) then None
      else
        var n: int := DigitsValue(digits);
        if s[0] == '-' then Some(-n) else Some(n)
    else if AllDigits(s) then Some(DigitsValue(s))
    else None
  }

  /** A decimal number `digits * 10^scale`. */
  datatype Decimal = Decimal(digits: nat, scale: int)

  /**
   * An unsigned decimal literal as ECMAScript's StringNumericLiteral grammar
   * reads it: digits, an optional point with more digits (at least one digit
   * in all), and an optional exponent; `None` when `u` is not one.
   */
  function UnsignedDecimal(u: string): (d: Option<Decimal>)
    ensures AllDigits(u) && u != [] ==> d == Some(Decimal(DigitsValue(u), 0))
  {
    var e := FirstOf(u, 'e', 'E');
    var mantissa := u[..e];
    var exponent := if e < |u| then Exponent(u[e + 1..]) else Some(0);
    var dot := FirstOf(mantissa, '.', '.');
    var whole := mantissa[..dot];
    var fraction := if dot < |mantissa| then mantissa[dot + 1..] else [];
    assert AllDigits(u) && u != [] ==> exponent == Some(0) && whole + fraction == u by {
      if AllDigits(u) && u != [] {
        assert e == |u|;
        assert dot == |mantissa|;
        assert mantissa == u && whole == u;
      }
    }
    if exponent.None? || !AllDigits(whole) || !AllDigits(fraction) || |whole| + |fraction| == 0 then None
    else
      assert AllDigits(whole + fraction) by {
        forall k | 0 <= k < |whole + fraction| ensures IsDigit((whole + fraction)[k]) {
          if k >= |whole| {
            assert (whole + fraction)[k] == fraction[k - |whole|];
          }
        }
      }
      Some(Decimal(DigitsValue(whole + fraction), exponent.value - |fraction|))
  }

  /**
   * The decimal rounds to zero as a double: its digits are all zero, or it
   * lies at or below half the smallest subnormal, 2^-1075, where rounding to
   * nearest, ties to even, gives zero.
   */
  predicate RoundsToZero(d: Decimal) {
    d.digits == 0 || (d.scale < 0 && d.digits * Pow(2, 1075) <= Pow(10, -d.scale))
  }

  /** `Number(s)` is zero: the white-space-trimmed text is empty, a zero hexadecimal, octal or binary literal, or a signed decimal literal that rounds to zero. */
  predicate ToNumberIsZero(s: string) {
    var t := Trim(s);
    if t == [] then true
    else if |t| >= 2 && t[0] == '0' && (t[1] in "xXoObB") then |t| > 2 && AllZeros(t[2..])
    else
      var u := if t[0] == '+' || t[0] == '-' then t[1..] else t;
      var d := UnsignedDecimal(u);
      d.Some? && RoundsToZero(d.value)
  }

  /** `a == b` in JavaScript, for two values that are each a string or `false`. */
  predicate LooseEquals(a: Option<string>, b: Option<string>) {
    match (a, b)
    case (Some(x), Some(y)) => x == y
    case (None, None) => true
    case (None, Some(y)) => ToNumberIsZero(y)
    case (Some(x), None) => ToNumberIsZero(x)
  }

  /**
   * Loose equality is symmetric, and it is exact equality unless one side is
   * `false` and the other a string whose numeric value is zero.
   */
  lemma LooseEqualsIsExactOffZero(a: Option<string>, b: Option<string>)
    ensures LooseEquals(a, b) == LooseEquals(b, a)
    ensures a == b ==> LooseEquals(a, b)
    ensures (a.None? || !ToNumberIsZero(a.value)) && (b.None? || !ToNumberIsZero(b.value))
            ==> (LooseEquals(a, b) <==> a == b)
    ensures a == None && b.Some? ==> (LooseEquals(a, b) <==> ToNumberIsZero(b.value))
  {
  }

  /** A string of digits with a non-zero digit has a non-zero value, so `false` never equals it. */
  lemma NonZeroDigitsAreNotZero(s: string, k: nat)
    requires AllDigits(s) && k < |s| && s[k] != '0'
    ensures !ToNumberIsZero(s)
    ensures !LooseEquals(None, Some(s))
  {
    assert !IsSpace(s[0]) && !IsSpace(s[|s| - 1]);
    TrimmedIsFixed(s);
    assert !AllZeros(s);
  }

  /** The empty string and "0" both equal `false`. */
  lemma FalseEqualsEmptyAndZero()
    ensures LooseEquals(None, Some(""))
    ensures LooseEquals(None, Some("0"))
  {
    TrimmedIsFixed("0");
    assert AllDigits("0");
    assert UnsignedDecimal("0") == Some(Decimal(0, 0));
  }
}
