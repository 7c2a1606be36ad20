/**
 Rendering a numeric literal exactly. A literal is its digits and a decimal
 exponent; the rendering is a long division to the literal's display scale, and
 what is proved is that the division always comes out even.
 */
module Numerics {

  function Pow10(k: nat): (r: nat)
    ensures r > 0
  {
    if k == 0 then 1 else 10 * Pow10(k - 1)
  }

  predicate IsDigit(c: char) {
    '0' <= c <= '9'
  }

  predicate AllDigits(s: string) {
    forall i :: 0 <= i < |s| ==> IsDigit(s[i])
  }

  function DigitValue(c: char): nat
    requires IsDigit(c)
  {
    c as int - '0' as int
  }

  function Parse(s: string): nat
    requires AllDigits(s)
  {
    if s == "" then 0 else 10 * Parse(s[..|s| - 1]) + DigitValue(s[|s| - 1])
  }

  /** `whole[.frac][e exp]`, as the lexer reads it; `frac` is empty when there is no point. */
  datatype Literal = Literal(whole: string, frac: string, exp: int)

  predicate WellFormed(l: Literal) {
    AllDigits(l.whole) && AllDigits(l.frac)
  }

  /** The digits as one integer: the literal's value is this times 10 to `exp - |frac|`. */
  function Mantissa(l: Literal): nat
    requires WellFormed(l)
  {
    Parse(l.whole + l.frac)
  }

  /** The value as a fraction. */
  function Numerator(l: Literal): nat
    requires WellFormed(l)
  {
    if l.exp >= 0 then Mantissa(l) * Pow10(l.exp) else Mantissa(l)
  }

  function Denominator(l: Literal): (r: nat)
    ensures r > 0
  {
    if l.exp >= 0 then Pow10(|l.frac|) else Pow10(|l.frac| - l.exp)
  }

  /** The display scale: the digits after the point less the exponent, never below zero. */
  function Scale(l: Literal): nat {
    if |l.frac| - l.exp < 0 then 0 else |l.frac| - l.exp
  }

  /** It is the least number of places at which every literal of this shape is a whole number of units. */
  lemma ScaleIsLeast(l: Literal, k: nat)
    ensures |l.frac| <= k + l.exp <==> Scale(l) <= k
  {
  }

  // ---- The division ----

  /** A decimal with `prec` places: `whole` and `frac` / 10^prec. */
  datatype Decimal = Decimal(whole: nat, frac: nat)

  /** The nearest decimal with `prec` places, halves away from zero (`Rat.FloatString`). */
  function Rounded(num: nat, den: nat, prec: nat): Decimal
    requires den > 0
  {
    var q, r := num / den, num % den;
    var f, rest := r * Pow10(prec) / den, r * Pow10(prec) % den;
    var up := if 2 * rest >= den then f + 1 else f;
    if up >= Pow10(prec) then Decimal(q + 1, up - Pow10(prec)) else Decimal(q, up)
  }

  lemma QuotientBelow(den: nat, p: nat, r: nat, f: nat, rest: nat)
    requires r < den && r * p == f * den + rest && p > 0
    ensures f < p
  {
    assert (p - f) * den == (den - r) * p + rest;
  }

  lemma Remainder(num: nat, den: nat, p: nat, q: nat, r: nat, up: nat)
    requires num == q * den + r
    ensures num * p - (q * p + up) * den == r * p - up * den
  {
    assert num * p == q * den * p + r * p;
    assert (q * p + up) * den == q * p * den + up * den;
  }

  lemma Nearest(num: nat, den: nat, p: nat, q: nat, r: nat, f: nat, rest: nat, up: nat)
    requires num == q * den + r && r * p == f * den + rest && rest < den
    requires up == if 2 * rest >= den then f + 1 else f
    ensures 0 - den <= 2 * (num * p - (q * p + up) * den) < den
  {
    Remainder(num, den, p, q, r, up);
    assert up * den == if 2 * rest >= den then f * den + den else f * den;
  }

  lemma Divided(x: nat, den: nat) returns (q: nat, r: nat)
    requires den > 0
    ensures q == x / den && r == x % den && x == q * den + r && r < den
  {
    q, r := x / den, x % den;
  }

  lemma CarriedOver(q: nat, p: nat, up: nat, d: Decimal)
    requires up <= p && d == if up >= p then Decimal(q + 1, up - p) else Decimal(q, up)
    ensures d.whole * p + d.frac == q * p + up && (p > 0 ==> d.frac < p)
  {
    assert (q + 1) * p == q * p + p;
  }

  lemma RoundedUp(num: nat, den: nat, prec: nat) returns (q: nat, up: nat)
    requires den > 0
    ensures up <= Pow10(prec)
    ensures var p := Pow10(prec); 0 - den <= 2 * (num * p - (q * p + up) * den) < den
    ensures Rounded(num, den, prec) ==
            if up >= Pow10(prec) then Decimal(q + 1, up - Pow10(prec)) else Decimal(q, up)
  {
    var p, r, f, rest := Pow10(prec), 0, 0, 0;
    q, r := Divided(num, den);
    f, rest := Divided(r * p, den);
    up := if 2 * rest >= den then f + 1 else f;
    QuotientBelow(den, p, r, f, rest);
    Nearest(num, den, p, q, r, f, rest, up);
  }

  /** No decimal with as many places is nearer, and of two equally near it is the upper one. */
  lemma RoundedIsNearest(num: nat, den: nat, prec: nat)
    requires den > 0
    ensures var d, p := Rounded(num, den, prec), Pow10(prec);
      d.frac < p && 0 - den <= 2 * (num * p - (d.whole * p + d.frac) * den) < den
  {
    var q, up := RoundedUp(num, den, prec);
    CarriedOver(q, Pow10(prec), up, Rounded(num, den, prec));
  }

  lemma {:induction false} PowAdds(a: nat, b: nat)
    ensures Pow10(a + b) == Pow10(a) * Pow10(b)
    decreases b
  {
    if b > 0 {
      PowAdds(a, b - 1);
      assert Pow10(a + b) == 10 * Pow10(a + (b - 1));
    }
  }

  /** When the scaled value is a whole number, nothing is rounded. */
  lemma EvenDivision(num: nat, den: nat, prec: nat, n: nat)
    requires den > 0 && num * Pow10(prec) == n * den
    ensures var d := Rounded(num, den, prec);
      d.frac < Pow10(prec) && d.whole * Pow10(prec) + d.frac == n
  {
    var p, q, r := Pow10(prec), num / den, num % den;
    assert num == q * den + r;
    Scaled(num, den, p, q, r, n);
    var k := n - q * p;
    Exactly(r * p, den, k);
    Below(k, den, r, p);
  }

  lemma Scaled(num: nat, den: nat, p: nat, q: nat, r: nat, n: nat)
    requires den > 0 && num == q * den + r && num * p == n * den
    ensures n >= q * p && r * p == (n - q * p) * den
  {
    assert num * p == q * den * p + r * p;
    assert r * p == n * den - q * p * den == (n - q * p) * den;
  }

  lemma Exactly(x: nat, den: nat, k: nat)
    requires den > 0 && x == k * den
    ensures x / den == k && x % den == 0
  {
    var q, r := x / den, x % den;
    assert (k - q) * den == r;
    NoMultipleBetween(k - q, den, r);
  }

  lemma NoMultipleBetween(z: int, den: nat, r: nat)
    requires den > 0 && r < den && z * den == r
    ensures z == 0 && r == 0
  {
  }

  lemma Below(k: nat, den: nat, r: nat, p: nat)
    requires r < den && r * p == k * den && p > 0
    ensures k < p
  {
    assert (p - k) * den == p * (den - r);
  }

  /** The value times 10^scale is the whole number the digits and the exponent make. */
  lemma ScaledIsWhole(l: Literal)
    requires WellFormed(l)
    ensures |l.frac| <= Scale(l) + l.exp
    ensures Numerator(l) * Pow10(Scale(l)) == Mantissa(l) * Pow10(Scale(l) + l.exp - |l.frac|) * Denominator(l)
  {
    var m, f, s := Mantissa(l), |l.frac|, Scale(l);
    if l.exp >= 0 {
      PowAdds(l.exp, s);
      PowAdds(s + l.exp - f, f);
      Regroup(m, Pow10(l.exp), Pow10(s), Pow10(s + l.exp - f), Pow10(f));
    } else {
      assert s + l.exp - f == 0 && Pow10(0) == 1;
    }
  }

  lemma Regroup(m: nat, a: nat, b: nat, x: nat, y: nat)
    requires a * b == x * y
    ensures m * a * b == m * x * y
  {
    assert m * a * b == m * (a * b) && m * x * y == m * (x * y);
  }

  /** The rendered number is the literal's value, with no digit lost. */
  lemma RenderedIsExact(l: Literal)
    requires WellFormed(l)
    ensures |l.frac| <= Scale(l) + l.exp
    ensures var d := Rounded(Numerator(l), Denominator(l), Scale(l));
      && d.frac < Pow10(Scale(l))
      && d.whole * Pow10(Scale(l)) + d.frac == Mantissa(l) * Pow10(Scale(l) + l.exp - |l.frac|)
  {
    ScaledIsWhole(l);
    EvenDivision(Numerator(l), Denominator(l), Scale(l), Mantissa(l) * Pow10(Scale(l) + l.exp - |l.frac|));
  }

  // ---- The text ----

  function DigitOf(d: nat): (c: char)
    requires d < 10
    ensures IsDigit(c) && DigitValue(c) == d
  {
    '0' + d as char
  }

  function Digits(n: nat): (s: string)
    ensures AllDigits(s) && s != ""
  {
    if n < 10 then [DigitOf(n)] else Digits(n / 10) + [DigitOf(n % 10)]
  }

  /** The last `k` digits of `n`, with leading zeros. */
  function Padded(n: nat, k: nat): (s: string)
    ensures AllDigits(s) && |s| == k
    decreases k
  {
    if k == 0 then "" else Padded(n / 10, k - 1) + [DigitOf(n % 10)]
  }

  lemma {:induction false} ParseDigits(n: nat)
    ensures Parse(Digits(n)) == n
  {
    if n < 10 {
      assert Digits(n)[..0] == "";
    } else {
      ParseDigits(n / 10);
      assert Digits(n)[..|Digits(n)| - 1] == Digits(n / 10);
    }
  }

  lemma {:induction false} ParsePadded(n: nat, k: nat)
    requires n < Pow10(k)
    ensures Parse(Padded(n, k)) == n
    decreases k
  {
    if k > 0 {
      ParsePadded(n / 10, k - 1);
      assert Padded(n, k)[..k - 1] == Padded(n / 10, k - 1);
    }
  }

  lemma {:induction false} ParseConcat(a: string, b: string)
    requires AllDigits(a) && AllDigits(b)
    ensures AllDigits(a + b) && Parse(a + b) == Parse(a) * Pow10(|b|) + Parse(b)
    decreases |b|
  {
    if b == "" {
      assert a + b == a;
    } else {
      var init := b[..|b| - 1];
      assert (a + b)[..|a + b| - 1] == a + init && (a + b)[|a + b| - 1] == b[|b| - 1];
      ParseConcat(a, init);
      Shift(Parse(a), Pow10(|init|), Parse(init), DigitValue(b[|b| - 1]));
      assert Pow10(|b|) == 10 * Pow10(|init|);
    }
  }

  lemma Shift(x: nat, p: nat, y: nat, d: nat)
    ensures 10 * (x * p + y) + d == x * (10 * p) + (10 * y + d)
  {
  }

  /** `numericLiteralText`: the rendering, read as a literal again. */
  function Render(l: Literal): Literal
    requires WellFormed(l)
  {
    var d := Rounded(Numerator(l), Denominator(l), Scale(l));
    Literal(Digits(d.whole), Padded(d.frac, Scale(l)), 0)
  }

  predicate SameValue(a: Literal, b: Literal)
    requires WellFormed(a) && WellFormed(b)
  {
    Numerator(a) * Denominator(b) == Numerator(b) * Denominator(a)
  }

  /** A literal and its rendering denote the same rational, and the rendering shows `Scale` places. */
  lemma RenderKeepsValue(l: Literal)
    requires WellFormed(l)
    ensures WellFormed(Render(l)) && |Render(l).frac| == Scale(l) && SameValue(l, Render(l))
  {
    var d, s := Rounded(Numerator(l), Denominator(l), Scale(l)), Scale(l);
    RenderedIsExact(l);
    ScaledIsWhole(l);
    ParseDigits(d.whole);
    ParsePadded(d.frac, s);
    ParseConcat(Digits(d.whole), Padded(d.frac, s));
    assert Mantissa(Render(l)) == d.whole * Pow10(s) + d.frac;
    assert Pow10(0) == 1;
  }
}
