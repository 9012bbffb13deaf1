/** The part of JavaScript's Number behaviour the backend depends on: NaN
    propagation in arithmetic, Number(string) for signed decimals, and the
    decimal rendering of a non-negative integer. */
module Numbers {
  import opened Strings

  /** A JavaScript number, with exact reals in place of doubles. */
  datatype Num = Finite(value: real) | NaN

  function Add(a: Num, b: Num): (r: Num)
    ensures r.Finite? <==> a.Finite? && b.Finite?
    ensures r.Finite? ==> r.value == a.value + b.value
  {
    if a.Finite? && b.Finite? then Finite(a.value + b.value) else NaN
  }

  function Mul(a: Num, b: Num): (r: Num)
    ensures r.Finite? <==> a.Finite? && b.Finite?
    ensures r.Finite? ==> r.value == a.value * b.value
  {
    if a.Finite? && b.Finite? then Finite(a.value * b.value) else NaN
  }

  predicate IsDigit(ch: char) {
    '0' <= ch <= '9'
  }

  predicate AllDigits(s: string) {
    forall i :: 0 <= i < |s| ==> IsDigit(s[i])
  }

  function DigitValue(ch: char): nat
    requires IsDigit(ch)
  {
    ch as int - '0' as int
  }

  /** The value of a string of decimal digits (0 for the empty string). */
  function DecimalValue(s: string): nat
    requires AllDigits(s)
  {
    if s == [] then 0 else 10 * DecimalValue(s[..|s| - 1]) + DigitValue(s[|s| - 1])
  }

  /** The value of the digits after a decimal point: "25" is 0.25. */
  function FractionValue(s: string): (r: real)
    requires AllDigits(s)
    ensures 0.0 <= r <= 1.0
  {
    if s == [] then 0.0 else (DigitValue(s[0]) as real + FractionValue(s[1..])) / 10.0
  }

  /** The value of an unsigned decimal "12", "12.5", "12." or ".5"; NaN for
      anything else, the empty string included. */
  function UnsignedDecimal(t: string): (r: Num)
    ensures r.Finite? ==> r.value >= 0.0
  {
    var k := IndexOf(t, '.');
    var whole := t[..k];
    var frac := if k < |t| then t[k + 1..] else [];
    if AllDigits(whole) && AllDigits(frac) && |whole| + |frac| > 0 then
      Finite(DecimalValue(whole) as real + FractionValue(frac))
    else NaN
  }

  /** Number(s) for decimals with an optional sign and surrounding whitespace,
      and for the blank string, which JavaScript reads as 0. Exponents, hex,
      "Infinity" and every other form are NaN here. */
  function NumberOf(s: string): Num {
    var t := Trim(s);
    if t == [] then Finite(0.0)
    else if t[0] == '-' then Neg(UnsignedDecimal(t[1..]))
    else if t[0] == '+' then UnsignedDecimal(t[1..])
    else UnsignedDecimal(t)
  }

  function Neg(a: Num): (r: Num)
    ensures r.Finite? <==> a.Finite?
    ensures r.Finite? ==> r.value == -a.value
  {
    if a.Finite? then Finite(-a.value) else NaN
  }

  function DigitChar(d: nat): (ch: char)
    requires d < 10
    ensures IsDigit(ch) && DigitValue(ch) == d
  {
    ('0' as int + d) as char
  }

  /** The decimal rendering JavaScript gives a non-negative integer. */
  function NatToDecimal(n: nat): (s: string)
    ensures |s| >= 1 && AllDigits(s)
    ensures DecimalValue(s) == n
  {
    if n < 10 then [DigitChar(n)]
    else
      var p := NatToDecimal(n / 10);
      var s := p + [DigitChar(n % 10)];
      assert s[..|s| - 1] == p;
      s
  }

  lemma DigitsAreNotSpaces(s: string)
    requires AllDigits(s)
    ensures IsTrimmed(s)
  {
  }

  /** A non-empty run of digits reads as its decimal value. */
  lemma UnsignedOfDigits(s: string)
    requires |s| >= 1 && AllDigits(s)
    ensures UnsignedDecimal(s) == Finite(DecimalValue(s) as real)
  {
    forall i | 0 <= i < |s| ensures s[i] != '.' {
      assert IsDigit(s[i]);
    }
    var k := IndexOf(s, '.');
    assert k == |s|;
    assert s[..k] == s;
    assert UnsignedDecimal(s) == Finite(DecimalValue(s) as real + FractionValue([]));
    assert FractionValue([]) == 0.0;
  }

  /** A non-empty run of digits reads as its value. */
  lemma NumberOfDigits(s: string)
    requires |s| >= 1 && AllDigits(s)
    ensures NumberOf(s) == Finite(DecimalValue(s) as real)
  {
    DigitsAreNotSpaces(s);
    TrimStartOfTrimmed(s);
    TrimEndOfTrimmed(s);
    var t := Trim(s);
    assert t == s;
    assert t[0] != '-' && t[0] != '+';
    UnsignedOfDigits(s);
  }

  /** Reading back the decimal rendering of n gives n. */
  lemma NumberOfDecimal(n: nat)
    ensures NumberOf(NatToDecimal(n)) == Finite(n as real)
  {
    NumberOfDigits(NatToDecimal(n));
  }
}
