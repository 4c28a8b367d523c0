/**
  Numerals: JavaScript's `String(n)` for integers, and `Number(s)` over the
  whole StringNumericLiteral grammar of ECMAScript (signed decimals with an
  optional exponent, `Infinity`, and `0x`, `0o` and `0b` integers).
*/
module Numerals {
  import Text
  import opened Options

  predicate IsDigit(c: char) {
    '0' <= c <= '9'
  }

  predicate AllDigits(s: string) {
    forall i :: 0 <= i < |s| ==> IsDigit(s[i])
  }

  function DigitChar(d: nat): (c: char)
    requires d < 10
    ensures IsDigit(c)
  {
    ('0' as int + d) as char
  }

  function DigitValue(c: char): (d: nat)
    requires IsDigit(c)
    ensures d < 10 && DigitChar(d) == c
  {
    c as int - '0' as int
  }

  function Pow10(k: nat): (p: nat)
    ensures p >= 1
  {
    if k == 0 then 1 else 10 * Pow10(k - 1)
  }

  /** `String(n)` for a non-negative integer: decimal digits without leading zeros. */
  function NatToString(n: nat): (r: string)
    ensures CanonicalDigits(r)
    ensures n > 0 ==> r[0] != '0'
  {
    if n < 10 then [DigitChar(n)] else NatToString(n / 10) + [DigitChar(n % 10)]
  }

  /** The value of a string of decimal digits; the empty string is 0. */
  function ParseDigits(s: string): nat
    requires AllDigits(s)
  {
    if |s| == 0 then 0 else 10 * ParseDigits(s[..|s| - 1]) + DigitValue(s[|s| - 1])
  }

  /** `String(i)` for any integer. */
  function IntToString(i: int): (r: string)
    ensures |r| >= 1
    ensures r[0] == '-' <==> i < 0
    ensures IsCanonicalInt(r)
  {
    if i < 0 then "-" + NatToString(-i) else NatToString(i)
  }

  /** Digits as `String(n)` prints a natural: at least one, and no leading zero. */
  predicate CanonicalDigits(d: string) {
    |d| > 0 && AllDigits(d) && (d[0] == '0' ==> |d| == 1)
  }

  /** Text as `String(i)` prints an integer: canonical digits, after a minus sign when negative. */
  predicate IsCanonicalInt(s: string) {
    if |s| > 0 && s[0] == '-' then CanonicalDigits(s[1..]) && s[1] != '0'
    else CanonicalDigits(s)
  }

  /** The integer an optionally signed digit string denotes; leading zeros are allowed. */
  function ParseInt(s: string): Option<int> {
    if |s| > 0 && s[0] == '-' then
      if |s| > 1 && AllDigits(s[1..]) then var d: int := ParseDigits(s[1..]); Some(-d) else None
    else if |s| > 0 && AllDigits(s) then Some(ParseDigits(s))
    else None
  }

  /** What JavaScript's `Number(s)` yields: NaN, a finite number or an infinity. */
  datatype JsNumber = NaN | Num(value: real) | PosInfinity | NegInfinity

  /** JavaScript's `x <= 0`: true for zero, negatives and minus infinity, false for NaN. */
  predicate AtMostZero(n: JsNumber) {
    (n.Num? && n.value <= 0.0) || n.NegInfinity?
  }

  /**
    `Number(s)` (the StringNumericLiteral grammar of ECMAScript): surrounding
    white space is ignored, a blank string is 0, and anything outside the
    grammar is NaN.
  */
  function ToNumber(s: string): JsNumber {
    NumericLiteral(Text.Trim(s))
  }

  /**
    `Number` of an already trimmed string: a signed decimal literal, or an
    unsigned `0x`, `0o` or `0b` integer.
  */
  function NumericLiteral(t: string): JsNumber {
    if |t| == 0 then Num(0.0)
    else if t[0] == '-' then Negate(UnsignedDecimal(t[1..]))
    else if t[0] == '+' then UnsignedDecimal(t[1..])
    else if Radix(t) > 0 then NonDecimal(t[2..], Radix(t))
    else UnsignedDecimal(t)
  }

  function Negate(n: JsNumber): (r: JsNumber)
    ensures n.Num? ==> r == Num(-n.value)
  {
    match n
    case NaN => NaN
    case Num(v) => Num(-v)
    case PosInfinity => NegInfinity
    case NegInfinity => PosInfinity
  }

  /** The base a `0x`, `0o` or `0b` prefix selects, or 0 when there is none. */
  function Radix(t: string): (b: nat)
    ensures b == 0 || b == 2 || b == 8 || b == 16
    ensures b > 0 ==> |t| >= 2 && t[0] == '0' && t[1] in "xXoObB"
  {
    if |t| < 2 || t[0] != '0' then 0
    else if t[1] == 'x' || t[1] == 'X' then 16
    else if t[1] == 'o' || t[1] == 'O' then 8
    else if t[1] == 'b' || t[1] == 'B' then 2
    else 0
  }

  /** The value of `c` as a digit in base `b`, or `b` itself when it is not one. */
  function DigitIn(c: char, b: nat): (d: nat)
    ensures d <= b
    ensures IsDigit(c) && b == 10 ==> d == DigitValue(c)
  {
    var v: int :=
      if '0' <= c <= '9' then c as int - '0' as int
      else if 'a' <= c <= 'f' then c as int - 'a' as int + 10
      else if 'A' <= c <= 'F' then c as int - 'A' as int + 10
      else b;
    if v < b then v else b
  }

  predicate AllDigitsIn(s: string, b: nat) {
    forall i :: 0 <= i < |s| ==> DigitIn(s[i], b) < b
  }

  /** The value of a string of base-`b` digits; the empty string is 0. */
  function ParseRadix(s: string, b: nat): nat
    requires AllDigitsIn(s, b)
  {
    if |s| == 0 then 0 else b * ParseRadix(s[..|s| - 1], b) + DigitIn(s[|s| - 1], b)
  }

  /** The digits after a `0x`, `0o` or `0b` prefix: at least one, all in the base. */
  function NonDecimal(s: string, b: nat): (n: JsNumber)
    ensures n.Num? ==> n.value >= 0.0
    ensures n.NaN? || n.Num?
  {
    if |s| > 0 && AllDigitsIn(s, b) then Num(ParseRadix(s, b) as real) else NaN
  }

  /** Position of the first exponent marker `e` or `E` in `s`, or `|s|`. */
  function ExponentIndex(s: string): (k: nat)
    ensures k <= |s|
    ensures k < |s| ==> s[k] == 'e' || s[k] == 'E'
    ensures forall i :: 0 <= i < k ==> s[i] != 'e' && s[i] != 'E'
  {
    var lower := Text.IndexOf(s, 'e');
    var upper := Text.IndexOf(s, 'E');
    if lower < upper then lower else upper
  }

  /**
    An unsigned decimal literal: `Infinity`, or a mantissa with an optional
    exponent part.
  */
  function UnsignedDecimal(s: string): (n: JsNumber)
    ensures n.Num? ==> n.value >= 0.0
    ensures !n.NegInfinity?
  {
    if s == "Infinity" then PosInfinity
    else
      var k := ExponentIndex(s);
      var m := Mantissa(s[..k]);
      var e := if k < |s| then Exponent(s[k + 1..]) else Some(0);
      if m.Some? && e.Some? then Num(Scale(m.value, e.value)) else NaN
  }

  /** Decimal digits with at most one point, and a digit on at least one side of it. */
  function Mantissa(s: string): (m: Option<real>)
    ensures m.Some? ==> m.value >= 0.0
  {
    var k := Text.IndexOf(s, '.');
    var whole := s[..k];
    var frac := if k < |s| then s[k + 1..] else [];
    if AllDigits(whole) && AllDigits(frac) && |whole| + |frac| > 0 then
      Some(ParseDigits(whole) as real + ParseDigits(frac) as real / Pow10(|frac|) as real)
    else None
  }

  /** The part after `e`: an optional sign and at least one digit. */
  function Exponent(s: string): Option<int> {
    var signed := |s| > 0 && (s[0] == '+' || s[0] == '-');
    var digits := if signed then s[1..] else s;
    if |digits| > 0 && AllDigits(digits) then
      var d: int := ParseDigits(digits);
      Some(if signed && s[0] == '-' then -d else d)
    else None
  }

  /** `m` times ten to the power `e`, exactly. */
  function Scale(m: real, e: int): (r: real)
    ensures m >= 0.0 ==> r >= 0.0
    ensures r == 0.0 <==> m == 0.0
  {
    if e >= 0 then m * Pow10(e) as real else m / Pow10(-e) as real
  }

  // ---------- Lemmas ----------

  lemma {:induction false} ParseNatToString(n: nat)
    ensures ParseDigits(NatToString(n)) == n
  {
    if n >= 10 {
      var r := NatToString(n);
      assert r[..|r| - 1] == NatToString(n / 10);
      ParseNatToString(n / 10);
    }
  }

  /** Reading back what `String(i)` prints gives `i`. */
  lemma {:induction false} ParseIntToString(i: int)
    ensures ParseInt(IntToString(i)) == Some(i)
  {
    var r := IntToString(i);
    if i < 0 {
      var d := NatToString(-i);
      assert r[1..] == d;
      assert |r| > 1 && AllDigits(r[1..]);
      ParseNatToString(-i);
    } else {
      assert r[0] != '-';
      ParseNatToString(i);
    }
  }


  /** Digits that start with a non-zero digit denote a positive number. */
  lemma {:induction false} LeadingDigitPositive(d: string)
    requires AllDigits(d) && |d| > 0 && d[0] != '0'
    ensures ParseDigits(d) > 0
    decreases |d|
  {
    if |d| > 1 {
      LeadingDigitPositive(d[..|d| - 1]);
    }
  }

  /** Printing the value of canonical digits gives the digits back. */
  lemma {:induction false} NatToStringOfParse(d: string)
    requires CanonicalDigits(d)
    ensures NatToString(ParseDigits(d)) == d
    decreases |d|
  {
    var v := DigitValue(d[|d| - 1]);
    if |d| == 1 {
      assert d == [d[0]];
    } else {
      var init := d[..|d| - 1];
      assert init[0] == d[0];
      NatToStringOfParse(init);
      LeadingDigitPositive(init);
      var n := ParseDigits(d);
      assert n == 10 * ParseDigits(init) + v;
      assert n / 10 == ParseDigits(init) && n % 10 == v;
      assert d == init + [d[|d| - 1]];
    }
  }

  /** A canonical numeral is what `String` prints for the integer it denotes. */
  lemma {:induction false} CanonicalRoundTrip(s: string)
    requires IsCanonicalInt(s)
    ensures ParseInt(s).Some? && IntToString(ParseInt(s).value) == s
  {
    if |s| > 0 && s[0] == '-' {
      var d := s[1..];
      LeadingDigitPositive(d);
      NatToStringOfParse(d);
      assert s == "-" + d;
    } else {
      NatToStringOfParse(s);
    }
  }

  /** Two canonical numerals that denote the same integer are the same text. */
  lemma CanonicalIntUnique(a: string, b: string)
    requires IsCanonicalInt(a) && IsCanonicalInt(b) && ParseInt(a) == ParseInt(b)
    ensures a == b
  {
    CanonicalRoundTrip(a);
    CanonicalRoundTrip(b);
  }

  lemma {:induction false} DigitsHaveNoPoint(s: string)
    requires AllDigits(s)
    ensures Text.IndexOf(s, '.') == |s|
  {
  }

  lemma {:induction false} DigitsHaveNoExponent(s: string)
    requires AllDigits(s)
    ensures ExponentIndex(s) == |s|
  {
  }

  lemma {:induction false} MantissaOfDigits(s: string)
    requires AllDigits(s) && |s| > 0
    ensures Mantissa(s) == Some(ParseDigits(s) as real)
  {
    DigitsHaveNoPoint(s);
    assert s[..|s|] == s;
    var frac: string := [];
    assert ParseDigits(frac) == 0 && Pow10(|frac|) == 1;
  }

  lemma {:induction false} ExponentOfDigits(s: string)
    requires AllDigits(s) && |s| > 0
    ensures Exponent(s) == Some(ParseDigits(s))
  {
    assert IsDigit(s[0]);
  }

  lemma {:induction false} UnsignedDecimalOfDigits(s: string)
    requires AllDigits(s) && |s| > 0
    ensures UnsignedDecimal(s) == Num(ParseDigits(s) as real)
  {
    assert IsDigit(s[0]) && s != "Infinity";
    DigitsHaveNoExponent(s);
    assert s[..|s|] == s;
    MantissaOfDigits(s);
  }

  /** A literal that starts with a digit and then has no radix letter is decimal. */
  lemma DecimalLiteral(t: string)
    requires |t| > 0 && IsDigit(t[0])
    requires |t| > 1 ==> IsDigit(t[1]) || t[1] == 'e'
    ensures NumericLiteral(t) == UnsignedDecimal(t)
  {
  }

  lemma {:induction false} ToNumberOfDigits(s: string)
    requires AllDigits(s) && |s| > 0
    ensures ToNumber(s) == Num(ParseDigits(s) as real)
  {
    assert IsDigit(s[0]) && IsDigit(s[|s| - 1]);
    Text.TrimOfUnpadded(s);
    DecimalLiteral(s);
    UnsignedDecimalOfDigits(s);
  }

  /** `Number(String(n))` is `n` for every non-negative integer. */
  lemma {:induction false} ToNumberOfNatString(n: nat)
    ensures ToNumber(NatToString(n)) == Num(n as real)
  {
    ToNumberOfDigits(NatToString(n));
    ParseNatToString(n);
  }

  /** An unpadded string is its own literal. */
  lemma ToNumberOfUnpadded(s: string)
    requires |s| > 0 ==> !Text.IsSpace(s[0]) && !Text.IsSpace(s[|s| - 1])
    ensures ToNumber(s) == NumericLiteral(s)
  {
    Text.TrimOfUnpadded(s);
  }

  lemma {:induction false} NegativeDigitsUnpadded(s: string)
    requires AllDigits(s) && |s| > 0
    ensures ToNumber("-" + s) == NumericLiteral("-" + s)
  {
    var r := "-" + s;
    assert r[|r| - 1] == s[|s| - 1];
    assert IsDigit(r[|r| - 1]);
    ToNumberOfUnpadded(r);
  }

  lemma {:induction false} ToNumberOfNegativeDigits(s: string)
    requires AllDigits(s) && |s| > 0
    ensures ToNumber("-" + s) == Num(-(ParseDigits(s) as real))
  {
    NegativeDigitsUnpadded(s);
    NegativeDigitsLiteral(s);
  }

  lemma {:induction false} NegativeDigitsLiteral(s: string)
    requires AllDigits(s) && |s| > 0
    ensures NumericLiteral("-" + s) == Num(-(ParseDigits(s) as real))
  {
    NegativeLiteral(s);
    UnsignedDecimalOfDigits(s);
  }

  lemma NegativeLiteral(s: string)
    ensures NumericLiteral("-" + s) == Negate(UnsignedDecimal(s))
  {
    assert ("-" + s)[1..] == s;
  }

  /** The exponent marker of `m + "e" + x` sits right after the digits of `m`. */
  lemma {:induction false} ExponentAfterDigits(m: string, x: string)
    requires AllDigits(m)
    ensures ExponentIndex(m + "e" + x) == |m|
  {
    var s := m + "e" + x;
    assert s[|m|] == 'e';
    assert forall i :: 0 <= i < |m| ==> s[i] == m[i];
  }

  /** `m` digits, `e`, `x` digits denotes `m` times ten to the `x`. */
  lemma {:induction false} UnsignedDecimalOfScientific(m: string, x: string)
    requires AllDigits(m) && |m| > 0 && AllDigits(x) && |x| > 0
    ensures UnsignedDecimal(m + "e" + x) == Num(Scale(ParseDigits(m) as real, ParseDigits(x)))
  {
    var s := m + "e" + x;
    assert s[0] == m[0] && IsDigit(m[0]) && s != "Infinity";
    ExponentAfterDigits(m, x);
    assert s[..|m|] == m && s[|m| + 1..] == x;
    MantissaOfDigits(m);
    ExponentOfDigits(x);
  }

  lemma {:induction false} NegativeScientificUnpadded(m: string, x: string)
    requires AllDigits(m) && |m| > 0 && AllDigits(x) && |x| > 0
    ensures ToNumber("-" + m + "e" + x) == NumericLiteral("-" + m + "e" + x)
  {
    var s := "-" + m + "e" + x;
    assert s[|s| - 1] == x[|x| - 1] && IsDigit(x[|x| - 1]);
    ToNumberOfUnpadded(s);
  }

  /** `Number` of a literal in exponent form, such as `"2e3"`. */
  lemma {:induction false} ToNumberOfScientific(m: string, x: string)
    requires AllDigits(m) && |m| > 0 && AllDigits(x) && |x| > 0
    ensures ToNumber(m + "e" + x) == Num(Scale(ParseDigits(m) as real, ParseDigits(x)))
  {
    var s := m + "e" + x;
    assert IsDigit(s[0]) && IsDigit(s[|s| - 1]);
    ToNumberOfUnpadded(s);
    ScientificLiteral(m, x);
  }

  lemma {:induction false} ScientificLiteral(m: string, x: string)
    requires AllDigits(m) && |m| > 0 && AllDigits(x) && |x| > 0
    ensures NumericLiteral(m + "e" + x) == Num(Scale(ParseDigits(m) as real, ParseDigits(x)))
  {
    var s := m + "e" + x;
    assert s[0] == m[0] && IsDigit(m[0]);
    assert |m| > 1 ==> s[1] == m[1] && IsDigit(m[1]);
    assert |m| == 1 ==> s[1] == 'e';
    DecimalLiteral(s);
    UnsignedDecimalOfScientific(m, x);
  }

  /** `Number` of a negative literal in exponent form, such as `"-1e5"`. */
  lemma {:induction false} ToNumberOfNegativeScientific(m: string, x: string)
    requires AllDigits(m) && |m| > 0 && AllDigits(x) && |x| > 0
    ensures ToNumber("-" + m + "e" + x) == Num(-Scale(ParseDigits(m) as real, ParseDigits(x)))
  {
    NegativeScientificUnpadded(m, x);
    NegativeScientificLiteral(m, x);
  }

  lemma {:induction false} NegativeScientificLiteral(m: string, x: string)
    requires AllDigits(m) && |m| > 0 && AllDigits(x) && |x| > 0
    ensures NumericLiteral("-" + m + "e" + x) == Num(-Scale(ParseDigits(m) as real, ParseDigits(x)))
  {
    assert "-" + m + "e" + x == "-" + (m + "e" + x);
    NegativeLiteral(m + "e" + x);
    UnsignedDecimalOfScientific(m, x);
  }

  /** `Number` of the two infinity literals, once trimmed. */
  lemma InfinityLiterals()
    ensures NumericLiteral("Infinity") == PosInfinity
    ensures NumericLiteral("-Infinity") == NegInfinity
  {
    NegativeLiteral("Infinity");
    assert "-" + "Infinity" == "-Infinity";
  }

  /** `Number` of a `0x` literal is the value of its hexadecimal digits. */
  lemma {:induction false} ToNumberOfHex(h: string)
    requires |h| > 0 && AllDigitsIn(h, 16)
    ensures ToNumber("0x" + h) == Num(ParseRadix(h, 16) as real)
  {
    var s := "0x" + h;
    assert DigitIn(h[|h| - 1], 16) < 16;
    assert s[|s| - 1] == h[|h| - 1];
    Text.TrimOfUnpadded(s);
    assert Radix(s) == 16 && s[2..] == h;
  }
}
