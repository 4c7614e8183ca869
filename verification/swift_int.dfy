/** Swift's `Int(_: String)` parser and `String(_: Int)` rendering, over the 64-bit `Int`. */
module SwiftInt {
  import opened Basics

  /** `Int.min` and `Int.max` on the 64-bit platforms the app targets. */
  const MinInt: int := -0x8000_0000_0000_0000
  const MaxInt: int := 0x7FFF_FFFF_FFFF_FFFF

  predicate InRange(n: int)
  {
    MinInt <= n <= MaxInt
  }

  predicate IsDigit(c: char)
  {
    '0' <= c <= '9'
  }

  /** A non-empty run of ASCII digits. */
  predicate IsNumeral(s: string)
  {
    |s| > 0 && forall i :: 0 <= i < |s| ==> IsDigit(s[i])
  }

  function DigitValue(c: char): nat
    requires IsDigit(c)
  {
    c as int - '0' as int
  }

  function DigitChar(d: nat): (c: char)
    requires d < 10
    ensures IsDigit(c) && DigitValue(c) == d
  {
    ('0' as int + d) as char
  }

  /** The value of a run of decimal digits, most significant first. */
  function NumeralValue(s: string): nat
    requires forall i :: 0 <= i < |s| ==> IsDigit(s[i])
    decreases |s|
  {
    if |s| == 0 then 0 else NumeralValue(s[..|s| - 1]) * 10 + DigitValue(s[|s| - 1])
  }

  /** `Int(s)`: an optional `+` or `-` followed by one or more ASCII digits, whose value fits in
      `Int`; anything else, an overflowing numeral included, gives `nil`. */
  function Parse(s: string): (r: Option<int>)
    ensures r.Some? ==> InRange(r.value)
    ensures r.Some? ==> |s| > 0 && (IsDigit(s[0]) || s[0] == '+' || s[0] == '-')
    ensures r.Some? ==> forall i :: 1 <= i < |s| ==> IsDigit(s[i])
    ensures r.Some? && !IsDigit(s[0]) ==> |s| > 1
    ensures r.Some? && s[0] == '-' ==> r.value <= 0
    ensures r.Some? && s[0] != '-' ==> r.value >= 0
  {
    if |s| > 0 && (s[0] == '+' || s[0] == '-') then
      var digits := s[1..];
      if !IsNumeral(digits) then None
      else
        var magnitude: int := NumeralValue(digits);
        var v := if s[0] == '-' then -magnitude else magnitude;
        if InRange(v) then Some(v) else None
    else if IsNumeral(s) && InRange(NumeralValue(s)) then Some(NumeralValue(s))
    else None
  }

  /** The value a sign (`""`, `"+"` or `"-"`) gives a run of digits. */
  function SignedValue(sign: string, digits: string): int
    requires IsNumeral(digits)
  {
    var magnitude: int := NumeralValue(digits);
    if sign == "-" then -magnitude else magnitude
  }

  /** The converse of `Parse`'s contract, with the value: a sign or none, then one or more
      digits, parses exactly when the signed value fits in `Int`, and then to that value.
      Leading zeros, a `+` and `-0` are accepted. */
  lemma ParseSignedNumeral(sign: string, digits: string)
    requires sign == "" || sign == "+" || sign == "-"
    requires IsNumeral(digits)
    ensures Parse(sign + digits) ==
      if InRange(SignedValue(sign, digits)) then Some(SignedValue(sign, digits)) else None
  {
    if sign != "" {
      assert (sign + digits)[1..] == digits;
    } else {
      assert sign + digits == digits;
    }
  }

  /** A few inputs `Int(_:)` treats as the parser does. */
  lemma ParseExamples()
    ensures Parse("+7") == Some(7) && Parse("007") == Some(7) && Parse("-0") == Some(0)
    ensures Parse("") == None && Parse("-") == None && Parse("7a") == None
  {
    assert "007"[..2] == "00" && "00"[..1] == "0" && "0"[..0] == "";
    ParseSignedNumeral("+", "7");
    ParseSignedNumeral("", "007");
    ParseSignedNumeral("-", "0");
    assert !IsDigit("7a"[1]);
  }

  /** The decimal digits of `n`, without leading zeros. */
  function Digits(n: nat): (r: string)
    ensures IsNumeral(r) && NumeralValue(r) == n
    ensures r[0] == '0' ==> n == 0
    decreases n
  {
    if n < 10 then [DigitChar(n)]
    else
      var front := Digits(n / 10);
      var r := front + [DigitChar(n % 10)];
      assert r[..|r| - 1] == front;
      r
  }

  /** A numeral beyond `Int.max` (or, with a `-`, below `Int.min`) gives `nil`, whatever its sign. */
  lemma ParseRejectsOverflow(n: nat)
    requires n > MaxInt
    ensures Parse(Digits(n)) == None && Parse("+" + Digits(n)) == None
    ensures n > -MinInt ==> Parse("-" + Digits(n)) == None
    ensures n == -MinInt ==> Parse("-" + Digits(n)) == Some(MinInt)
  {
    ParseSignedNumeral("", Digits(n));
    ParseSignedNumeral("+", Digits(n));
    ParseSignedNumeral("-", Digits(n));
  }

  /** `String(n)`: a `-` for negative values, then the digits of the magnitude. */
  function Render(n: int): string
  {
    if n < 0 then "-" + Digits(-n) else Digits(n)
  }

  /** `Int(String(n)) == n` for every `Int` value. */
  lemma ParseRender(n: int)
    requires InRange(n)
    ensures Parse(Render(n)) == Some(n)
  {
    if n < 0 {
      assert Render(n)[1..] == Digits(-n);
    }
  }

  /** Distinct `Int` values render as distinct strings. */
  lemma RenderInjective(a: int, b: int)
    requires InRange(a) && InRange(b)
    ensures Render(a) == Render(b) <==> a == b
  {
    ParseRender(a);
    ParseRender(b);
  }
}
