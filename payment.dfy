/** The Payment entity: a monetary transaction recorded against a property unit. */
module PaymentEntity {
  import opened Errors
  import opened Dates
  import opened Money
  import opened PropertyUnitEntity

  type PaymentId = int

  datatype PaymentType = Rent | Deposit | Maintenance | Utility | Other

  datatype PaymentStatus = Paid | Pending

  /** A payment record. `unit` is the owning unit's id (null in a request that names no
      unit); `monthYear` and `appliedIndex` are legacy columns no logic reads. */
  datatype Payment = Payment(
    id: Option<PaymentId>,
    unit: Option<UnitId>,
    amount: Option<Cents>,
    paymentDate: Option<Date>,
    paymentType: PaymentType,
    description: Option<string>,
    status: PaymentStatus,
    monthYear: Option<string>,
    appliedIndex: Option<string>)

  /** `new Payment()`: every reference null, type RENT and status PAID. */
  function NewPayment(): (p: Payment)
    ensures p.paymentType == Rent && p.status == Paid
    ensures p.id.None? && p.unit.None? && p.amount.None? && p.paymentDate.None?
  {
    Payment(None, None, None, None, Rent, None, Paid, None, None)
  }

  const MaxDescriptionLength: nat := 500

  /** The field constraints Payment declares, with `today` standing for the clock that
      @PastOrPresent reads. The non-null owning unit is a column constraint, kept by the
      store rather than by this predicate. */
  predicate ValidPayment(p: Payment, today: Date) {
    && p.amount.Some? && AmountConstraint(p.amount.value)
    && p.paymentDate.Some? && !After(p.paymentDate.value, today)
    && (p.description.None? || |p.description.value| <= MaxDescriptionLength)
  }

  /** A valid payment is at least 0.01 and at most 99999999.99, dated today or earlier,
      with a description of at most 500 characters when it has one. */
  lemma ValidPaymentFacts(p: Payment, today: Date)
    requires ValidPayment(p, today)
    ensures p.amount.Some? && 1 <= p.amount.value <= 99_999_999_99
    ensures p.paymentDate.Some? && !Before(today, p.paymentDate.value)
    ensures p.description.Some? ==> |p.description.value| <= 500
  {
    AmountConstraintRange(p.amount.value);
  }
}
