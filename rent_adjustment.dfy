/** Rent adjusted for lease tenure: the base rent compounded by 3% for every whole year
    elapsed since the lease started, rounded HALF_UP to cents. */
module RentAdjustment {
  import opened Errors
  import opened Dates
  import opened Money

  /** The yearly factor 1.03 as the fraction 103/100. */
  const RateNumerator: nat := 103
  const RateDenominator: nat := 100

  /** baseRent * 1.03^k, exact, then setScale(2, HALF_UP). In cents the exact product
      is baseRent * 103^k / 100^k; the result is the nearest cent, a tie rounding up. */
  function Compound(baseRent: Cents, k: nat): (r: Cents)
    ensures baseRent >= 0 ==>
      2 * r * Pow(100, k) - Pow(100, k) <= 2 * (baseRent * Pow(103, k)) < 2 * r * Pow(100, k) + Pow(100, k)
  {
    RoundHalfUp(baseRent * Pow(RateNumerator, k), Pow(RateDenominator, k))
  }

  /** No whole year elapsed: the rent is the base rent, exactly. */
  lemma CompoundZeroYears(baseRent: Cents)
    ensures Compound(baseRent, 0) == baseRent
  {
    RoundExact(baseRent, 1);
  }

  /** One more year never lowers a non-negative rent. */
  lemma CompoundStep(baseRent: Cents, k: nat)
    requires baseRent >= 0
    ensures Compound(baseRent, k) <= Compound(baseRent, k + 1)
  {
    var n1, d1 := baseRent * Pow(103, k), Pow(100, k);
    var n2, d2 := baseRent * Pow(103, k + 1), Pow(100, k + 1);
    assert d2 == 100 * d1;
    assert n2 == 103 * n1;
    MulLe(0, baseRent, Pow(103, k));
    MulLe(0, n1, d1);
    assert n1 * d2 == 100 * (n1 * d1);
    assert n2 * d1 == 103 * (n1 * d1);
    RoundMonotone(n1, d1, n2, d2);
  }

  /** The adjusted rent never decreases as the number of whole years grows. */
  lemma {:induction false} CompoundMonotone(baseRent: Cents, k1: nat, k2: nat)
    requires baseRent >= 0 && k1 <= k2
    ensures Compound(baseRent, k1) <= Compound(baseRent, k2)
    decreases k2 - k1
  {
    if k1 < k2 {
      CompoundStep(baseRent, k1);
      CompoundMonotone(baseRent, k1 + 1, k2);
    }
  }

  /** Compounding never brings a non-negative rent below the base rent. */
  lemma CompoundAtLeastBase(baseRent: Cents, k: nat)
    ensures baseRent >= 0 ==> Compound(baseRent, k) >= baseRent
  {
    if baseRent >= 0 {
      CompoundZeroYears(baseRent);
      CompoundMonotone(baseRent, 0, k);
    }
  }

  /** calculateAdjustedRent once the unit and its base rent are known: with no lease
      start, or before it, the base rent unchanged; otherwise compounded over the whole
      years elapsed. */
  function AdjustedRent(baseRent: Cents, leaseStart: Option<Date>, effective: Date): (r: Cents)
    ensures leaseStart.None? || Before(effective, leaseStart.value) ==> r == baseRent
    ensures leaseStart.Some? && !Before(effective, leaseStart.value) ==>
      YearsBetween(leaseStart.value, effective) >= 0 &&
      r == Compound(baseRent, YearsBetween(leaseStart.value, effective))
    ensures baseRent >= 0 ==> r >= baseRent
  {
    if leaseStart.None? || Before(effective, leaseStart.value) then
      baseRent
    else
      YearsBetweenWholeYears(leaseStart.value, effective);
      var k: nat := YearsBetween(leaseStart.value, effective);
      CompoundAtLeastBase(baseRent, k);
      Compound(baseRent, k)
  }

  /** Under a year into the lease, the adjusted rent is the base rent. */
  lemma AdjustedRentFirstYear(baseRent: Cents, leaseStart: Date, effective: Date)
    requires !Before(effective, leaseStart)
    requires MonthsBetween(leaseStart, effective) < 12
    ensures AdjustedRent(baseRent, Some(leaseStart), effective) == baseRent
  {
    YearsBetweenWholeYears(leaseStart, effective);
    CompoundZeroYears(baseRent);
  }

  /** A non-negative adjusted rent never decreases as the effective date moves later. */
  lemma AdjustedRentNonDecreasing(baseRent: Cents, leaseStart: Option<Date>, e1: Date, e2: Date)
    requires baseRent >= 0
    requires !Before(e2, e1)
    ensures AdjustedRent(baseRent, leaseStart, e1) <= AdjustedRent(baseRent, leaseStart, e2)
  {
    if leaseStart.Some? && !Before(e1, leaseStart.value) {
      var s := leaseStart.value;
      PackedOrder(e2, e1);
      PackedOrder(e1, s);
      PackedOrder(e2, s);
      ElapsedMonotone(s, e1, e2);
      YearsBetweenWholeYears(s, e1);
      CompoundMonotone(baseRent, YearsBetween(s, e1), YearsBetween(s, e2));
    }
  }

  /** On the k-th anniversary of the lease (when that day exists in the month), the
      adjusted rent is the base rent compounded k times. */
  lemma AdjustedRentOnAnniversary(baseRent: Cents, leaseStart: Date, k: nat)
    requires leaseStart.day <= DaysInMonth(leaseStart.year + k, leaseStart.month)
    ensures AdjustedRent(baseRent, Some(leaseStart), PlusYears(leaseStart, k)) == Compound(baseRent, k)
  {
    YearsBetweenAnniversary(leaseStart, k);
  }

  /** Base rent 1000.00 from 2020-01-01: three whole years on 2023-01-01, and
      1000.00 * 1.03^3 = 1092.727 rounds to 1092.73. */
  lemma ThreeYearsAdjustment()
    ensures AdjustedRent(100000, Some(YearMonthDay(2020, 1, 1)), YearMonthDay(2023, 1, 1)) == 109273
  {
    MonthsBetweenCalendar(YearMonthDay(2020, 1, 1), YearMonthDay(2023, 1, 1));
    assert YearsBetween(YearMonthDay(2020, 1, 1), YearMonthDay(2023, 1, 1)) == 3;
    assert Pow(103, 3) == 1092727;
    assert Pow(100, 3) == 1000000;
    assert Compound(100000, 3) == RoundHalfUp(109272700000, 1000000);
  }
}
