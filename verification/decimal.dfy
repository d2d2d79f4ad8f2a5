/** Decimal numbers in text: Python's `float(s)` reader, `round(x, 2)` and the
  `"{:.2f}"` rendering, over exact `real` values.

  Python works on binary floating point; here a number is the exact decimal it
  denotes, and rounding to two decimals is round-half-to-even on that exact
  value.
 */
module Decimal {
  import opened Wrappers
  import opened Text

  predicate IsDigit(c: char) {
    '0' <= c <= '9'
  }

  predicate AllDigits(s: string) {
    forall i :: 0 <= i < |s| ==> IsDigit(s[i])
  }

  function DigitValue(c: char): nat
    requires IsDigit(c)
  {
    c as int - '0' as int
  }

  function DigitChar(d: nat): (c: char)
    requires d < 10
    ensures IsDigit(c) && DigitValue(c) == d
  {
    ('0' as int + d) as char
  }

  /** The natural number a string of decimal digits denotes. */
  function DigitsValue(s: string): nat
    requires AllDigits(s)
  {
    if s == [] then 0 else DigitsValue(s[..|s| - 1]) * 10 + DigitValue(s[|s| - 1])
  }

  function Pow10(n: nat): (p: nat)
    ensures p >= 1
  {
    if n == 0 then 1 else 10 * Pow10(n - 1)
  }

  /** Shortest decimal rendering of a natural number. */
  function NatDigits(n: nat): string {
    if n < 10 then [DigitChar(n)] else NatDigits(n / 10) + [DigitChar(n % 10)]
  }

  /** `NatDigits` writes a non-empty run of digits that denotes `n`. */
  lemma {:induction false} NatDigitsValue(n: nat)
    ensures var s := NatDigits(n);
      s != [] && AllDigits(s) && DigitsValue(s) == n
  {
    if n >= 10 {
      NatDigitsValue(n / 10);
      var s := NatDigits(n);
      assert s[..|s| - 1] == NatDigits(n / 10);
    }
  }

  /** Two-digit rendering of `0 <= n < 100`, with a leading zero when needed. */
  function TwoDigits(n: nat): string
    requires n < 100
  {
    [DigitChar(n / 10), DigitChar(n % 10)]
  }

  lemma {:induction false} TwoDigitsValue(n: nat)
    requires n < 100
    ensures var s := TwoDigits(n);
      |s| == 2 && AllDigits(s) && DigitsValue(s) == n
  {
    var s := TwoDigits(n);
    assert s[..1] == [DigitChar(n / 10)];
    assert s[..1][..0] == [];
    assert DigitsValue(s[..1]) == n / 10;
  }

  /** Position of the first occurrence of `c` in `s` at or after `i`. */
  function IndexFrom(s: string, c: char, i: nat): (r: Option<nat>)
    requires i <= |s|
    ensures r.Some? ==> i <= r.value < |s| && s[r.value] == c
    decreases |s| - i
  {
    if i == |s| then None
    else if s[i] == c then Some(i)
    else IndexFrom(s, c, i + 1)
  }

  /** Position of the first occurrence of `c` in `s`. */
  function IndexOf(s: string, c: char): (r: Option<nat>)
    ensures r.Some? ==> r.value < |s| && s[r.value] == c
  {
    IndexFrom(s, c, 0)
  }

  predicate IsExponentMark(c: char) {
    c == 'e' || c == 'E'
  }

  /** Position of the first exponent mark in `s` at or after `i`. */
  function ExponentFrom(s: string, i: nat): (r: Option<nat>)
    requires i <= |s|
    ensures r.Some? ==> i <= r.value < |s| && IsExponentMark(s[r.value])
    decreases |s| - i
  {
    if i == |s| then None
    else if IsExponentMark(s[i]) then Some(i)
    else ExponentFrom(s, i + 1)
  }

  /** Position of the first exponent mark in `s`. */
  function IndexOfExponent(s: string): (r: Option<nat>)
    ensures r.Some? ==> r.value < |s| && IsExponentMark(s[r.value])
  {
    ExponentFrom(s, 0)
  }

  /** `digits`, `digits.`, `digits.digits` or `.digits`. */
  function ReadMantissa(t: string): Option<real> {
    match IndexOf(t, '.')
    case None =>
      if t != [] && AllDigits(t) then Some(DigitsValue(t) as real) else None
    case Some(k) =>
      var whole := t[..k];
      var fraction := t[k + 1..];
      if AllDigits(whole) && AllDigits(fraction) && |whole| + |fraction| > 0 then
        Some(DigitsValue(whole) as real + DigitsValue(fraction) as real / Pow10(|fraction|) as real)
      else None
  }

  /** An optionally signed, non-empty run of digits. */
  function ReadExponent(t: string): Option<int> {
    if t != [] && (t[0] == '+' || t[0] == '-') then
      if |t| > 1 && AllDigits(t[1..]) then
        var v: int := DigitsValue(t[1..]);
        Some(if t[0] == '-' then -v else v)
      else None
    else if t != [] && AllDigits(t) then Some(DigitsValue(t))
    else None
  }

  function Scale(m: real, e: int): real {
    if e >= 0 then m * Pow10(e) as real else m / Pow10(-e) as real
  }

  function ReadUnsigned(t: string): Option<real> {
    match IndexOfExponent(t)
    case None => ReadMantissa(t)
    case Some(k) =>
      match (ReadMantissa(t[..k]), ReadExponent(t[k + 1..]))
      case (Some(m), Some(e)) => Some(Scale(m, e))
      case _ => None
  }

  /** Python's `float(s)` for decimal text: surrounding whitespace, an optional
      sign, a mantissa and an optional exponent. `None` is the `ValueError`. */
  function ReadFloat(s: string): Option<real> {
    ReadSignedNumber(Strip(s))
  }

  /** An optional sign followed by an unsigned number. */
  function ReadSignedNumber(t: string): Option<real> {
    if t != [] && (t[0] == '+' || t[0] == '-') then
      match ReadUnsigned(t[1..])
      case None => None
      case Some(v) => Some(if t[0] == '-' then -v else v)
    else ReadUnsigned(t)
  }

  /** The integer nearest to `x`; a tie goes to the even neighbour. */
  function RoundHalfEven(x: real): (n: int)
    ensures -(1.0 / 2.0) <= n as real - x <= 1.0 / 2.0
    ensures (n as real - x == 1.0 / 2.0 || x - n as real == 1.0 / 2.0) ==> n % 2 == 0
  {
    var f := x.Floor;
    var d := x - f as real;
    if d < 1.0 / 2.0 then f
    else if d > 1.0 / 2.0 then f + 1
    else if f % 2 == 0 then f
    else f + 1
  }

  /** Python's `round(x, 2)`: the nearest multiple of one hundredth. */
  function Round2(x: real): (r: real)
    ensures -(1.0 / 200.0) <= r - x <= 1.0 / 200.0
    ensures (r * 100.0).Floor as real == r * 100.0
  {
    var n := RoundHalfEven(x * 100.0);
    var r := n as real / 100.0;
    assert r * 100.0 == n as real;
    assert r - x == (n as real - x * 100.0) / 100.0;
    r
  }

  /** Rounding to the nearest integer keeps order. */
  lemma {:induction false} RoundHalfEvenMonotone(x: real, y: real)
    requires x <= y
    ensures RoundHalfEven(x) <= RoundHalfEven(y)
  {
    var fx := x.Floor;
    var fy := y.Floor;
    if fx < fy {
      assert RoundHalfEven(x) <= fx + 1 <= fy <= RoundHalfEven(y);
    }
  }

  /** `round(x, 2)` keeps order. */
  lemma {:induction false} Round2Monotone(x: real, y: real)
    requires x <= y
    ensures Round2(x) <= Round2(y)
  {
    RoundHalfEvenMonotone(x * 100.0, y * 100.0);
  }

  /** Python's `"{:.2f}".format(x)`: the nearest number of hundredths, with a
      `-` when `x` is negative (so a small negative amount renders as "-0.00"). */
  function Fixed2(x: real): string {
    var c := RoundHalfEven(x * 100.0);
    SignedCents(x < 0.0, if c < 0 then -c else c)
  }

  /** `a` hundredths with an optional leading minus sign. */
  function SignedCents(negative: bool, a: nat): string {
    if negative then "-" + Cents(a) else Cents(a)
  }

  /** `a` hundredths written as whole units, a point and two decimals. */
  function Cents(a: nat): string {
    NatDigits(a / 100) + "." + TwoDigits(a % 100)
  }

  lemma {:induction false} IndexFromDigits(s: string, n: nat, i: nat)
    requires i <= n < |s| && s[n] == '.'
    requires forall k :: i <= k < n ==> IsDigit(s[k])
    ensures IndexFrom(s, '.', i) == Some(n)
    decreases n - i
  {
    if i < n {
      IndexFromDigits(s, n, i + 1);
    }
  }

  lemma {:induction false} IndexOfAfterDigits(whole: string, rest: string)
    requires AllDigits(whole)
    requires rest != [] && rest[0] == '.'
    ensures IndexOf(whole + rest, '.') == Some(|whole|)
  {
    var s := whole + rest;
    assert forall k :: 0 <= k < |whole| ==> s[k] == whole[k];
    IndexFromDigits(s, |whole|, 0);
  }

  lemma {:induction false} NoExponentFrom(s: string, i: nat)
    requires i <= |s|
    requires forall k :: i <= k < |s| ==> !IsExponentMark(s[k])
    ensures ExponentFrom(s, i) == None
    decreases |s| - i
  {
    if i < |s| {
      NoExponentFrom(s, i + 1);
    }
  }

  lemma {:induction false} NoExponentInDecimal(whole: string, fraction: string)
    requires AllDigits(whole) && AllDigits(fraction)
    ensures IndexOfExponent(whole + "." + fraction) == None
  {
    var u := whole + "." + fraction;
    forall i | 0 <= i < |u|
      ensures !IsExponentMark(u[i])
    {
      if i < |whole| {
        assert u[i] == whole[i];
      } else if i > |whole| {
        assert u[i] == fraction[i - |whole| - 1];
      }
    }
    NoExponentFrom(u, 0);
  }

  lemma {:induction false} UnsignedFixed(whole: string, fraction: string)
    requires whole != [] && AllDigits(whole)
    requires |fraction| == 2 && AllDigits(fraction)
    ensures ReadUnsigned(whole + "." + fraction)
         == Some(DigitsValue(whole) as real + DigitsValue(fraction) as real / 100.0)
  {
    var u := whole + "." + fraction;
    NoExponentInDecimal(whole, fraction);
    assert ReadUnsigned(u) == ReadMantissa(u);
    assert u == whole + ("." + fraction);
    IndexOfAfterDigits(whole, "." + fraction);
    assert u[..|whole|] == whole;
    assert u[|whole| + 1..] == fraction;
    assert Pow10(|fraction|) == 100 by {
      assert Pow10(2) == 10 * Pow10(1);
      assert Pow10(1) == 10 * Pow10(0);
    }
    assert ReadMantissa(u)
        == Some(DigitsValue(whole) as real + DigitsValue(fraction) as real / Pow10(|fraction|) as real);
  }

  lemma {:induction false} CentsSplit(a: nat)
    ensures (a / 100) as real + (a % 100) as real / 100.0 == a as real / 100.0
  {
    var q := a / 100;
    var m := a % 100;
    assert a == q * 100 + m;
    assert a as real == q as real * 100.0 + m as real;
  }

  lemma {:induction false} ReadPlain(body: string, v: real)
    requires body != [] && IsDigit(body[0]) && IsDigit(body[|body| - 1])
    requires ReadUnsigned(body) == Some(v)
    ensures ReadFloat(body) == Some(v)
  {
    StripUnchanged(body);
  }

  lemma {:induction false} StripSigned(body: string)
    requires body != [] && IsDigit(body[|body| - 1])
    ensures Strip("-" + body) == "-" + body
  {
    var s := "-" + body;
    assert s[0] == '-';
    assert s[|s| - 1] == body[|body| - 1];
    StripUnchanged(s);
  }

  lemma {:induction false} ReadMinus(body: string, v: real)
    requires body != [] && IsDigit(body[|body| - 1])
    requires ReadUnsigned(body) == Some(v)
    ensures ReadSignedNumber("-" + body) == Some(-v)
  {
    assert ("-" + body)[1..] == body;
  }

  lemma {:induction false} ReadNegative(body: string, v: real)
    requires body != [] && IsDigit(body[|body| - 1])
    requires ReadUnsigned(body) == Some(v)
    ensures ReadFloat("-" + body) == Some(-v)
  {
    ReadMinus(body, v);
    StripSigned(body);
  }

  lemma {:induction false} ReadCents(a: nat)
    ensures ReadUnsigned(Cents(a)) == Some(a as real / 100.0)
  {
    NatDigitsValue(a / 100);
    TwoDigitsValue(a % 100);
    UnsignedFixed(NatDigits(a / 100), TwoDigits(a % 100));
    CentsSplit(a);
  }

  lemma {:induction false} RoundSign(x: real)
    ensures x < 0.0 ==> RoundHalfEven(x * 100.0) <= 0
    ensures x >= 0.0 ==> RoundHalfEven(x * 100.0) >= 0
  {
  }

  /** Reading an optionally negated unsigned rendering with no surrounding
      whitespace. */
  lemma {:induction false} ReadSignedBody(f: string, negative: bool, body: string, v: real)
    requires f == if negative then "-" + body else body
    requires body != [] && IsDigit(body[0]) && IsDigit(body[|body| - 1])
    requires ReadUnsigned(body) == Some(v)
    ensures ReadFloat(f) == Some(if negative then -v else v)
  {
    if negative {
      ReadNegative(body, v);
    } else {
      ReadPlain(body, v);
    }
  }

  /** The digits of `a` hundredths read back as `a / 100`. */
  lemma {:induction false} CentsFacts(a: nat, b: string)
    requires b == Cents(a)
    ensures b != [] && IsDigit(b[0]) && IsDigit(b[|b| - 1])
    ensures ReadUnsigned(b) == Some(a as real / 100.0)
  {
    var whole := NatDigits(a / 100);
    var fraction := TwoDigits(a % 100);
    NatDigitsValue(a / 100);
    TwoDigitsValue(a % 100);
    assert b[0] == whole[0] && b[|b| - 1] == fraction[1];
    ReadCents(a);
  }

  lemma {:induction false} SignedCentsShape(negative: bool, a: nat)
    ensures SignedCents(negative, a) == if negative then "-" + Cents(a) else Cents(a)
  {
  }

  /** Reading back a signed rendering of `a` hundredths. */
  lemma {:induction false} ReadSignedCents(negative: bool, a: nat, f: string, v: real)
    requires f == SignedCents(negative, a)
    requires v == a as real / 100.0
    ensures ReadFloat(f) == Some(if negative then -v else v)
  {
    var b := Cents(a);
    CentsFacts(a, b);
    SignedCentsShape(negative, a);
    ReadSignedBody(f, negative, b, v);
  }

  lemma {:induction false} FixedShape(x: real)
    ensures var c := RoundHalfEven(x * 100.0);
      Fixed2(x) == SignedCents(x < 0.0, if c < 0 then -c else c)
  {
  }

  /** `round(x, 2)` is the signed magnitude that `Fixed2` writes. */
  lemma {:induction false} RoundMagnitude(x: real, c: int, a: nat, v: real)
    requires c == RoundHalfEven(x * 100.0)
    requires a == (if c < 0 then -c else c) && v == a as real / 100.0
    ensures Round2(x) == if x < 0.0 then -v else v
  {
    RoundSign(x);
  }

  /** Reading back a two-decimal rendering gives the value rounded to cents. */
  lemma {:induction false} ReadFixed2(x: real)
    ensures ReadFloat(Fixed2(x)) == Some(Round2(x))
  {
    var c := RoundHalfEven(x * 100.0);
    var a: nat := if c < 0 then -c else c;
    var v := a as real / 100.0;
    FixedShape(x);
    RoundMagnitude(x, c, a, v);
    ReadSignedCents(x < 0.0, a, Fixed2(x), v);
  }

  /** `Fixed2` writes no comma. */
  lemma {:induction false} Fixed2NoComma(x: real)
    ensures forall i :: 0 <= i < |Fixed2(x)| ==> Fixed2(x)[i] != ','
  {
    var c := RoundHalfEven(x * 100.0);
    var a: nat := if c < 0 then -c else c;
    FixedShape(x);
    SignedCentsShape(x < 0.0, a);
    var whole := NatDigits(a / 100);
    var fraction := TwoDigits(a % 100);
    NatDigitsValue(a / 100);
    TwoDigitsValue(a % 100);
    var b := Cents(a);
    assert b == whole + "." + fraction;
    forall i | 0 <= i < |b|
      ensures b[i] != ','
    {
      if i < |whole| {
        assert b[i] == whole[i];
      } else if i > |whole| {
        assert b[i] == fraction[i - |whole| - 1];
      }
    }
    assert Fixed2(x) == if x < 0.0 then "-" + b else b;
  }
}
