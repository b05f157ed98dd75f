/** Exact fractions over unbounded integers, and their display rounded to hundredths. */
module Fractions {
  import opened Wrappers
  import opened Lists

  datatype Fraction = Fraction(numerator: int, denominator: int)

  const ZERO_FRACTION := Fraction(0, 1)

  function Multiply(left: Fraction, right: Fraction): Fraction {
    Fraction(left.numerator * right.numerator, left.denominator * right.denominator)
  }

  function Divide(left: Fraction, right: Fraction): Option<Fraction> {
    if right.numerator == 0 then None
    else Some(Fraction(left.numerator * right.denominator, left.denominator * right.numerator))
  }

  function Add(left: Fraction, right: Fraction): Fraction {
    Fraction(left.numerator * right.denominator + right.numerator * left.denominator,
      left.denominator * right.denominator)
  }

  function Subtract(left: Fraction, right: Fraction): Fraction {
    Fraction(left.numerator * right.denominator - right.numerator * left.denominator,
      left.denominator * right.denominator)
  }

  function MaxZeroSubtract(left: Fraction, right: Fraction): Fraction {
    var difference := Subtract(left, right);
    if difference.numerator > 0 then difference else ZERO_FRACTION
  }

  predicate Positive(f: Fraction) { f.denominator > 0 }

  // Quantities, prices and costs are never negative.
  type Amount = f: Fraction | f.numerator >= 0 && f.denominator > 0 witness Fraction(0, 1)

  type PositiveAmount = f: Fraction | f.numerator > 0 && f.denominator > 0 witness Fraction(1, 1)

  predicate IsAmount(f: Fraction) { f.numerator >= 0 && f.denominator > 0 }

  function Abs(x: int): nat { if x < 0 then -x else x }

  // Hundredths of the magnitude, rounded half up.
  function Cents(value: Fraction): nat
    requires Positive(value)
  {
    (Abs(value.numerator) * 100 * 2 + value.denominator) / (value.denominator * 2)
  }

  function Digit(d: nat): char
    requires d < 10
  {
    '0' + d as char
  }

  function Decimal(n: nat): string {
    if n < 10 then [Digit(n)] else Decimal(n / 10) + [Digit(n % 10)]
  }

  function TwoDigits(n: nat): string
    requires n < 100
  {
    [Digit(n / 10), Digit(n % 10)]
  }

  function Money(value: Fraction): string
    requires Positive(value)
  {
    var rounded := Cents(value);
    (if value.numerator < 0 then "-" else "") + Decimal(rounded / 100) + "." + TwoDigits(rounded % 100)
  }

  // ---------- The value of a fraction ----------

  function ValueOf(f: Fraction): real
    requires Positive(f)
  {
    f.numerator as real / f.denominator as real
  }

  lemma ValueTimes(f: Fraction)
    requires Positive(f)
    ensures ValueOf(f) * f.denominator as real == f.numerator as real
  {
  }

  lemma ValueIs(f: Fraction, v: real)
    requires Positive(f) && v * f.denominator as real == f.numerator as real
    ensures ValueOf(f) == v
  {
  }

  lemma AddValue(a: Fraction, b: Fraction)
    requires Positive(a) && Positive(b)
    ensures Positive(Add(a, b)) && ValueOf(Add(a, b)) == ValueOf(a) + ValueOf(b)
  {
  }

  lemma MultiplyValue(a: Fraction, b: Fraction)
    requires Positive(a) && Positive(b)
    ensures Positive(Multiply(a, b)) && ValueOf(Multiply(a, b)) == ValueOf(a) * ValueOf(b)
  {
  }

  lemma DivideValue(a: Fraction, b: Fraction)
    requires Positive(a) && Positive(b) && b.numerator > 0
    ensures Divide(a, b).Some? && Positive(Divide(a, b).value)
    ensures ValueOf(b) > 0.0 && ValueOf(Divide(a, b).value) == ValueOf(a) / ValueOf(b)
  {
  }

  // ---------- Sums ----------

  function Sum(fs: seq<Fraction>): Fraction {
    if fs == [] then ZERO_FRACTION else Add(Sum(fs[..|fs| - 1]), fs[|fs| - 1])
  }

  lemma AddAssociates(a: Fraction, b: Fraction, c: Fraction)
    ensures Add(Add(a, b), c) == Add(a, Add(b, c))
  {
  }

  lemma ProductsArePositive(x: int, y: int)
    requires x >= 0 && y >= 0
    ensures x * y >= 0
    ensures x > 0 && y > 0 ==> x * y > 0
  {
  }

  lemma MultiplyAmounts(a: Amount, b: Amount)
    ensures IsAmount(Multiply(a, b))
  {
  }

  lemma DivideAmounts(a: Amount, b: Amount)
    ensures Divide(a, b).Some? ==> IsAmount(Divide(a, b).value)
  {
  }

  lemma AddAmounts(a: Amount, b: Amount)
    ensures IsAmount(Add(a, b))
  {
  }

  lemma {:induction false} SumOfAmounts(fs: seq<Amount>)
    ensures IsAmount(Sum(fs))
  {
    if fs != [] {
      SumOfAmounts(fs[..|fs| - 1]);
      AddAmounts(Sum(fs[..|fs| - 1]), fs[|fs| - 1]);
    }
  }

  lemma {:induction false} SumConcat(a: seq<Fraction>, b: seq<Fraction>)
    ensures Sum(a + b) == Add(Sum(a), Sum(b))
  {
    if b == [] {
      assert a + b == a;
    } else {
      assert (a + b)[..|a + b| - 1] == a + b[..|b| - 1];
      SumConcat(a, b[..|b| - 1]);
      AddAssociates(Sum(a), Sum(b[..|b| - 1]), b[|b| - 1]);
    }
  }

  /** A sum is the same fraction, numerator and denominator, in any order. */
  lemma {:induction false} SumPermuted(xs: seq<Fraction>, ys: seq<Fraction>)
    requires Permuted(xs, ys)
    ensures Sum(xs) == Sum(ys)
  {
    if xs == [] {
      assert |multiset(ys)| == 0;
      assert ys == [];
    } else {
      var i, rest := TakeOut(xs, ys);
      var before, x, after := ys[..i], ys[i], ys[i + 1..];
      SumPermuted(xs[..|xs| - 1], rest);
      SumConcat(before, after);
      SumConcat(before + [x], after);
      assert (before + [x])[..|before|] == before;
      MoveLast(Sum(before), x, Sum(after));
    }
  }

  lemma MoveLast(a: Fraction, x: Fraction, b: Fraction)
    ensures Add(Add(a, x), b) == Add(Add(a, b), x)
  {
  }

  // ---------- Rounding ----------

  /** `Cents` is the one whole number of hundredths within a half of the magnitude, ties upwards. */
  lemma CentsIsNearest(value: Fraction, r: int)
    requires Positive(value)
    ensures r == Cents(value) <==>
      2 * value.denominator * r <= 200 * Abs(value.numerator) + value.denominator < 2 * value.denominator * (r + 1)
  {
    var n, d := 200 * Abs(value.numerator) + value.denominator, 2 * value.denominator;
    QuotientIsUnique(n, d, r);
  }

  lemma MultiplesOrdered(d: int, a: int, b: int)
    requires d > 0
    ensures d * a < d * b <==> a < b
  {
  }

  lemma ProductSign(x: int, d: int)
    requires d > 0
    ensures x * d < 0 <==> x < 0
    ensures x * d > 0 <==> x > 0
  {
  }

  lemma QuotientIsUnique(n: int, d: int, r: int)
    requires d > 0
    ensures r == n / d <==> d * r <= n < d * (r + 1)
  {
    var q := n / d;
    assert n == d * q + n % d;
    MultiplesOrdered(d, r, q + 1);
    MultiplesOrdered(d, q, r + 1);
  }

  // The hundredths displayed, with their sign.
  function SignedCents(value: Fraction): int
    requires Positive(value)
  {
    var cents: int := Cents(value);
    if value.numerator < 0 then -cents else cents
  }

  // Scaled by the denominator, the error is at most a half.
  lemma ScaledError(value: Fraction)
    requires Positive(value)
    ensures var scaled := SignedCents(value) * value.denominator - 100 * value.numerator;
      -value.denominator <= 2 * scaled <= value.denominator
  {
  }

  lemma FromScaled(cd: int, n: int, d: int, ed: real)
    requires -d <= 2 * (cd - 100 * n) <= d && ed == cd as real - 100.0 * n as real
    ensures -(d as real) <= 2.0 * ed <= d as real
  {
  }

  lemma RoundingStep(c: int, n: int, d: int, v: real)
    requires d > 0 && v * d as real == n as real
    requires -d <= 2 * (c * d - 100 * n) <= d
    ensures -0.5 <= c as real - 100.0 * v <= 0.5
  {
    var e, cd, dr := c as real - 100.0 * v, c * d, d as real;
    var ed := e * dr;
    assert ed == cd as real - 100.0 * n as real by {
      RealProduct(c, d);
      ErrorTimes(c as real, v, dr);
    }
    FromScaled(cd, n, d, ed);
    BoundQuotient(e, dr, ed);
  }

  lemma SignedCentsError(value: Fraction)
    requires Positive(value)
    ensures -0.5 <= SignedCents(value) as real - 100.0 * ValueOf(value) <= 0.5
  {
    hide SignedCents, ValueOf;
    ScaledError(value);
    ValueTimes(value);
    RoundingStep(SignedCents(value), value.numerator, value.denominator, ValueOf(value));
  }

  lemma RealProduct(c: int, d: int)
    ensures (c * d) as real == c as real * d as real
  {
  }

  lemma ErrorTimes(c: real, v: real, d: real)
    ensures (c - 100.0 * v) * d == c * d - 100.0 * (v * d)
  {
  }

  lemma BoundQuotient(e: real, d: real, ed: real)
    requires d > 0.0 && ed == e * d && -d <= 2.0 * ed <= d
    ensures -0.5 <= e <= 0.5
  {
  }

  // The number a string of decimal digits writes.
  function ReadDecimal(s: string): nat {
    if s == "" then 0
    else
      var last := s[|s| - 1];
      ReadDecimal(s[..|s| - 1]) * 10 + if '0' <= last <= '9' then last as nat - '0' as nat else 0
  }

  // The hundredths a displayed amount stands for: sign, whole part, point and two digits.
  function ReadMoney(text: string): int {
    if |text| < 3 then 0
    else if text[0] == '-' then -ReadMoney(text[1..])
    else ReadDecimal(text[..|text| - 3]) * 100 + ReadDecimal(text[|text| - 2..])
  }

  lemma {:induction false} DecimalReads(n: nat)
    ensures ReadDecimal(Decimal(n)) == n && Decimal(n) != "" && Decimal(n)[0] != '-'
  {
    if n < 10 {
      assert Decimal(n)[..0] == "";
    } else {
      DecimalReads(n / 10);
      assert Decimal(n)[..|Decimal(n)| - 1] == Decimal(n / 10);
    }
  }

  lemma TwoDigitsRead(n: nat)
    requires n < 100
    ensures ReadDecimal(TwoDigits(n)) == n
  {
    var text := TwoDigits(n);
    assert text[..1] == [Digit(n / 10)] && text[..1][..0] == "";
    assert ReadDecimal(text[..1]) == n / 10;
    assert ReadDecimal(text) == n / 10 * 10 + n % 10;
  }

  lemma UnsignedReads(cents: nat)
    ensures ReadMoney(Decimal(cents / 100) + "." + TwoDigits(cents % 100)) == cents
  {
    hide Decimal, TwoDigits, ReadDecimal;
    var text := Decimal(cents / 100) + "." + TwoDigits(cents % 100);
    DecimalReads(cents / 100);
    TwoDigitsRead(cents % 100);
    TwoLong(cents % 100);
    assert text[..|text| - 3] == Decimal(cents / 100);
    assert text[|text| - 2..] == TwoDigits(cents % 100);
  }

  lemma TwoLong(n: nat)
    requires n < 100
    ensures |TwoDigits(n)| == 2
  {
  }

  /** The display can be read back: it writes exactly the rounded hundredths, with their sign. */
  lemma MoneyReads(value: Fraction)
    requires Positive(value)
    ensures ReadMoney(Money(value)) == SignedCents(value)
  {
    hide Decimal, TwoDigits, ReadDecimal, Cents;
    var shown := Decimal(Cents(value) / 100) + "." + TwoDigits(Cents(value) % 100);
    UnsignedReads(Cents(value));
    TwoLong(Cents(value) % 100);
    assert ("-" + shown)[1..] == shown;
    assert Money(value) == if value.numerator < 0 then "-" + shown else shown;
  }

  /** The display is within 1/200 of the value. */
  lemma RoundingError(value: Fraction)
    requires Positive(value)
    ensures -0.5 <= ReadMoney(Money(value)) as real - 100.0 * ValueOf(value) <= 0.5
  {
    hide Money, ReadMoney, SignedCents, ValueOf;
    SignedCentsError(value);
    MoneyReads(value);
  }

  /** Equal values display alike, whatever fractions write them. */
  lemma MoneyOfValue(a: Fraction, b: Fraction)
    requires Positive(a) && Positive(b) && ValueOf(a) == ValueOf(b)
    ensures Money(a) == Money(b)
  {
    ValueTimes(a);
    ValueTimes(b);
    var x, y := a.numerator * b.denominator, b.numerator * a.denominator;
    assert x as real == ValueOf(a) * a.denominator as real * b.denominator as real;
    assert x == y;
    ProductSign(a.numerator, b.denominator);
    ProductSign(b.numerator, a.denominator);
    SameQuotient(Abs(a.numerator), a.denominator, Abs(b.numerator), b.denominator);
  }

  lemma SameQuotient(n: nat, d: int, m: nat, e: int)
    requires d > 0 && e > 0 && n * e == m * d
    ensures (n * 100 * 2 + d) / (d * 2) == (m * 100 * 2 + e) / (e * 2)
  {
    var r := (n * 100 * 2 + d) / (d * 2);
    QuotientIsUnique(n * 100 * 2 + d, d * 2, r);
    ScaledBound(n, d, m, e, r);
    QuotientIsUnique(m * 100 * 2 + e, e * 2, r);
  }

  lemma ScaledBound(n: nat, d: int, m: nat, e: int, r: int)
    requires d > 0 && e > 0 && n * e == m * d
    requires d * 2 * r <= n * 100 * 2 + d < d * 2 * (r + 1)
    ensures e * 2 * r <= m * 100 * 2 + e < e * 2 * (r + 1)
  {
    var low, high := n * 100 * 2 + d - d * 2 * r, d * 2 * (r + 1) - (n * 100 * 2 + d);
    var low', high' := m * 100 * 2 + e - e * 2 * r, e * 2 * (r + 1) - (m * 100 * 2 + e);
    assert low * e == low' * d;
    assert high * e == high' * d;
    ProductSign(low, e);
    ProductSign(low', d);
    ProductSign(high, e);
    ProductSign(high', d);
  }

  // The displayed amounts, read back and added up in hundredths.
  function TotalCents(fs: seq<Fraction>): int
    requires forall i :: 0 <= i < |fs| ==> Positive(fs[i])
  {
    if fs == [] then 0 else TotalCents(fs[..|fs| - 1]) + ReadMoney(Money(fs[|fs| - 1]))
  }

  lemma {:induction false} SumValue(fs: seq<Fraction>)
    requires forall i :: 0 <= i < |fs| ==> Positive(fs[i])
    ensures Positive(Sum(fs))
    ensures -0.5 * |fs| as real <= TotalCents(fs) as real - 100.0 * ValueOf(Sum(fs)) <= 0.5 * |fs| as real
  {
    hide Money, ReadMoney, ValueOf;
    if fs == [] {
      ValueIs(ZERO_FRACTION, 0.0);
    } else {
      SumValue(fs[..|fs| - 1]);
      AddValue(Sum(fs[..|fs| - 1]), fs[|fs| - 1]);
      RoundingError(fs[|fs| - 1]);
    }
  }

  /** The sum of n displayed amounts differs from the displayed sum by at most (n + 1)/200. */
  lemma DisplayedTotals(fs: seq<Fraction>)
    requires forall i :: 0 <= i < |fs| ==> Positive(fs[i])
    ensures Positive(Sum(fs))
    ensures 2 * Abs(TotalCents(fs) - ReadMoney(Money(Sum(fs)))) <= |fs| + 1
  {
    hide Money, ReadMoney, ValueOf, Sum, TotalCents;
    SumValue(fs);
    RoundingError(Sum(fs));
  }
}
