/** Exact decimal money as integer cents, and BigDecimal's HALF_UP rounding of a
    fraction of cents back to whole cents. */
module Money {

  /** A BigDecimal amount with two fraction digits, counted in hundredths. */
  type Cents = int

  function Pow(b: nat, k: nat): (r: nat)
    ensures b >= 1 ==> r >= 1
  {
    if k == 0 then 1 else b * Pow(b, k - 1)
  }

  /** RoundingMode.HALF_UP to an integer: round to the nearest integer, and a tie away
      from zero. The fraction is num / den. */
  function RoundHalfUp(num: int, den: int): (r: int)
    requires den > 0
    ensures num >= 0 ==> r >= 0 && 2 * r * den - den <= 2 * num < 2 * r * den + den
    ensures num < 0 ==> r <= 0 && 2 * r * den - den < 2 * num <= 2 * r * den + den
  {
    if num >= 0 then
      var q := (2 * num + den) / (2 * den);
      DivBounds(2 * num + den, 2 * den);
      q
    else
      var q := (-2 * num + den) / (2 * den);
      DivBounds(-2 * num + den, 2 * den);
      -q
  }

  lemma DivBounds(a: int, b: int)
    requires a >= 0 && b > 0
    ensures a / b >= 0
    ensures (a / b) * b <= a < (a / b) * b + b
  {
  }

  /** The rounding of a value that is already a whole number is that number. */
  lemma RoundExact(c: int, den: int)
    requires den > 0
    ensures RoundHalfUp(c * den, den) == c
  {
    var r := RoundHalfUp(c * den, den);
    if c >= 0 {
      MulLe(0, c, den);
      RoundUnique(c * den, den, r, c);
    } else {
      MulLt(c, 0, den);
      RoundUniqueNeg(c * den, den, r, c);
    }
  }

  /** At most one integer satisfies the non-negative rounding bounds. */
  lemma RoundUnique(num: int, den: int, r1: int, r2: int)
    requires den > 0
    requires 2 * r1 * den - den <= 2 * num < 2 * r1 * den + den
    requires 2 * r2 * den - den <= 2 * num < 2 * r2 * den + den
    ensures r1 == r2
  {
    assert (r1 - r2) * (2 * den) < 1 * (2 * den);
    CancelLt(r1 - r2, 1, 2 * den);
    assert (r2 - r1) * (2 * den) < 1 * (2 * den);
    CancelLt(r2 - r1, 1, 2 * den);
  }

  /** At most one integer satisfies the negative rounding bounds. */
  lemma RoundUniqueNeg(num: int, den: int, r1: int, r2: int)
    requires den > 0
    requires 2 * r1 * den - den < 2 * num <= 2 * r1 * den + den
    requires 2 * r2 * den - den < 2 * num <= 2 * r2 * den + den
    ensures r1 == r2
  {
    assert (r1 - r2) * (2 * den) < 1 * (2 * den);
    CancelLt(r1 - r2, 1, 2 * den);
    assert (r2 - r1) * (2 * den) < 1 * (2 * den);
    CancelLt(r2 - r1, 1, 2 * den);
  }

  lemma CancelLt(a: int, b: int, p: int)
    requires p > 0 && a * p < b * p
    ensures a < b
  {
    if a >= b {
      MulLe(b, a, p);
    }
  }

  lemma SignOfProduct(a: int, p: int)
    requires p > 0 && a * p >= 0
    ensures a >= 0
  {
    if a < 0 {
      MulLe(a, -1, p);
    }
  }

  /** Rounding is monotone in the exact value: num1/den1 <= num2/den2 for non-negative
      fractions implies the rounded results are in the same order. */
  lemma RoundMonotone(num1: int, den1: int, num2: int, den2: int)
    requires den1 > 0 && den2 > 0 && 0 <= num1
    requires num1 * den2 <= num2 * den1
    ensures RoundHalfUp(num1, den1) <= RoundHalfUp(num2, den2)
  {
    MulLe(0, num1, den2);
    SignOfProduct(num2, den1);
    var r1 := RoundHalfUp(num1, den1);
    var r2 := RoundHalfUp(num2, den2);
    assert (2 * r1 - 1) * den1 == 2 * r1 * den1 - den1;
    assert (2 * r2 + 1) * den2 == 2 * r2 * den2 + den2;
    OrderFromBounds(r1, r2, num1, num2, den1, den2);
  }

  /** The cross-multiplied comparison behind RoundMonotone, free of the rounding itself. */
  lemma OrderFromBounds(r1: int, r2: int, num1: int, num2: int, den1: int, den2: int)
    requires den1 > 0 && den2 > 0
    requires (2 * r1 - 1) * den1 <= 2 * num1
    requires 2 * num2 < (2 * r2 + 1) * den2
    requires num1 * den2 <= num2 * den1
    ensures r1 <= r2
  {
    var a, b, p := 2 * r1 - 1, 2 * r2 + 1, den1 * den2;
    MulLe(a * den1, 2 * num1, den2);
    MulLt(2 * num2, b * den2, den1);
    assert (a * den1) * den2 == a * p;
    assert (2 * num1) * den2 == 2 * (num1 * den2);
    assert (2 * num2) * den1 == 2 * (num2 * den1);
    assert (b * den2) * den1 == b * p;
    CancelLt(a, b, p);
  }

  lemma MulLe(a: int, b: int, c: int)
    requires a <= b && c >= 0
    ensures a * c <= b * c
  {
  }

  lemma MulLt(a: int, b: int, c: int)
    requires a < b && c > 0
    ensures a * c < b * c
  {
  }

  /** Number of decimal digits of a natural number (zero has one digit). */
  function NumDigits(n: nat): (r: nat)
    ensures r >= 1
  {
    if n < 10 then 1 else 1 + NumDigits(n / 10)
  }

  /** The column and bean constraints on a money amount: @DecimalMin("0.01") (inclusive)
      and @Digits(integer = 8, fraction = 2). Two fraction digits are implied by counting
      in cents; the integer part is the amount in whole units. */
  predicate AmountConstraint(c: Cents) {
    c >= 1 && NumDigits(c / 100) <= 8
  }

  lemma {:induction false} NumDigitsBound(n: nat, k: nat)
    ensures NumDigits(n) <= k + 1 <==> n < Pow(10, k + 1)
  {
    if n >= 10 && k > 0 {
      NumDigitsBound(n / 10, k - 1);
    }
  }

  /** A constrained amount is between one cent and 99999999.99. */
  lemma AmountConstraintRange(c: Cents)
    ensures AmountConstraint(c) <==> 1 <= c <= 99_999_999_99
  {
    if c >= 1 {
      NumDigitsBound(c / 100, 7);
      assert Pow(10, 8) == 100_000_000;
    }
  }
}
