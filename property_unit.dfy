/** The PropertyUnit entity: a rentable unit with its lease terms. The payments a unit
    owns are held by the store and found by the unit's id (see module Store). */
module PropertyUnitEntity {
  import opened Errors
  import opened Dates
  import opened Money

  type UnitId = int
  type TenantId = int

  /** A property unit record. `id` is null until the store assigns one; rent, lease
      start and tenant are nullable references. */
  datatype PropertyUnit = PropertyUnit(
    id: Option<UnitId>,
    address: string,
    unitType: string,
    tenant: Option<TenantId>,
    baseRentAmount: Option<Cents>,
    leaseStartDate: Option<Date>)

  /** The message of the exception thrown for an unknown unit id. */
  function UnitNotFoundMessage(id: UnitId): string {
    "Property unit not found with id: " + IntToString(id)
  }

  /** Stands for the NullPointerException thrown when a null base rent is used. */
  const NullRentMessage: string := "base rent amount is null"

  /** @NotBlank: at least one character that String.trim would keep. */
  predicate NotBlank(s: string) {
    exists i :: 0 <= i < |s| && s[i] > ' '
  }

  /** The field constraints PropertyUnit declares, with `today` standing for the clock
      that @PastOrPresent reads. The tenant is optional. */
  predicate ValidUnit(u: PropertyUnit, today: Date) {
    && NotBlank(u.address) && 5 <= |u.address| <= 255
    && NotBlank(u.unitType) && 2 <= |u.unitType| <= 50
    && u.baseRentAmount.Some? && AmountConstraint(u.baseRentAmount.value)
    && u.leaseStartDate.Some? && !After(u.leaseStartDate.value, today)
  }

  /** A valid unit has a rent of at least one cent and at most 99999999.99, and a lease
      that has started by today, so the accounting functions never see a null there. */
  lemma ValidUnitFacts(u: PropertyUnit, today: Date)
    requires ValidUnit(u, today)
    ensures u.baseRentAmount.Some? && 1 <= u.baseRentAmount.value <= 99_999_999_99
    ensures u.leaseStartDate.Some? && !Before(today, u.leaseStartDate.value)
    ensures 5 <= |u.address| <= 255 && 2 <= |u.unitType| <= 50
  {
    AmountConstraintRange(u.baseRentAmount.value);
  }
}
