/** The payment service: recording, correcting and deleting payments, the payment
    queries, and the rent-accounting figures (adjusted rent and outstanding balance).
    Queries and figures read the store's contents; the recording operations change it. */
module PaymentService {
  import opened Errors
  import opened Dates
  import opened Money
  import opened PropertyUnitEntity
  import opened PaymentEntity
  import opened PaymentRepository
  import opened Store
  import opened RentAdjustment

  /** A single payment may cover at most three months of base rent. */
  const CeilingMonths: int := 3

  const CeilingMessage: string := "Payment amount cannot exceed 3 months of rent in a single payment"

  /** Stands for the database's rejection of a payment row without an owning unit. */
  const MissingUnitMessage: string := "payment has no property unit"

  function PaymentNotFoundMessage(id: PaymentId): string {
    "Payment not found with id: " + IntToString(id)
  }

  /** getPaymentById */
  function GetPaymentById(ps: seq<Payment>, id: PaymentId): (r: Result<Payment>)
    ensures r.Ok? ==> r.value in ps && r.value.id == Some(id)
    ensures r.Err? <==> forall p :: p in ps ==> p.id != Some(id)
    ensures r.Err? ==> r.error == NotFound(PaymentNotFoundMessage(id))
  {
    match FindById(ps, id)
    case Some(p) => Ok(p)
    case None => Err(NotFound(PaymentNotFoundMessage(id)))
  }

  /** With unique payment ids, the lookup returns the stored payment that has the id. */
  lemma GetPaymentByIdFindsStored(ps: seq<Payment>, q: Payment)
    requires DistinctIds(ps) && q in ps && q.id.Some?
    ensures GetPaymentById(ps, q.id.value) == Ok(q)
  {
    var r := GetPaymentById(ps, q.id.value);
    var i :| 0 <= i < |ps| && ps[i] == r.value;
    var j :| 0 <= j < |ps| && ps[j] == q;
    assert ps[i].id == ps[j].id;
  }

  /** getOutstandingPayments: the unit's PENDING payments. */
  function GetOutstandingPayments(ps: seq<Payment>, unitId: UnitId): (r: seq<Payment>)
    ensures forall p :: p in r <==> p in ps && p.unit == Some(unitId) && p.status == Pending
  {
    FindByPropertyUnitIdAndStatus(ps, unitId, Pending)
  }

  /** getPaymentHistory: the unit's payments dated within [startDate, endDate]. */
  function GetPaymentHistory(ps: seq<Payment>, unitId: UnitId, startDate: Date, endDate: Date): (r: seq<Payment>)
    ensures forall p :: p in r <==> p in ps && p.unit == Some(unitId) && DateBetween(p.paymentDate, startDate, endDate)
    ensures forall p :: p in r ==> p in ps && p.unit == Some(unitId)
    ensures forall p :: p in r ==> p.paymentDate.Some? && !Before(p.paymentDate.value, startDate) && !Before(endDate, p.paymentDate.value)
    ensures !Before(endDate, startDate) ==>
      forall p :: p in ps && p.unit == Some(unitId) && (p.paymentDate == Some(startDate) || p.paymentDate == Some(endDate)) ==> p in r
  {
    FindByPropertyUnitIdAndPaymentDateBetween(ps, unitId, startDate, endDate)
  }

  /** getTotalPaidAmount: the total of the unit's payments of one type, whatever their
      status, and zero rather than null when there are none. */
  function GetTotalPaidAmount(ps: seq<Payment>, unitId: UnitId, paymentType: PaymentType): (r: Cents)
    ensures r == TotalAmount(FindByPropertyUnitIdAndPaymentType(ps, unitId, paymentType))
    ensures (forall p :: p in ps && p.unit == Some(unitId) && p.paymentType == paymentType ==> p.amount.None?) ==> r == 0
  {
    var total := SumAmountByPropertyUnitIdAndPaymentType(ps, unitId, paymentType);
    NullsTotalZero(FindByPropertyUnitIdAndPaymentType(ps, unitId, paymentType));
    if total.Some? then total.value else 0
  }

  /** calculateAdjustedRent: an unknown unit throws; a unit with a base rent gets
      AdjustedRent of it; a null base rent is returned as is before the lease starts and
      throws (a null dereference) once the compounding applies. */
  function CalculateAdjustedRent(units: map<UnitId, PropertyUnit>, unitId: UnitId, effective: Date): (r: Result<Option<Cents>>)
    ensures unitId !in units ==> r == Err(Runtime(UnitNotFoundMessage(unitId)))
    ensures unitId in units && units[unitId].baseRentAmount.Some? ==>
      r == Ok(Some(AdjustedRent(units[unitId].baseRentAmount.value, units[unitId].leaseStartDate, effective)))
    ensures unitId in units && units[unitId].baseRentAmount.None? ==>
      r == if units[unitId].leaseStartDate.None? || Before(effective, units[unitId].leaseStartDate.value)
           then Ok(None) else Err(Runtime(NullRentMessage))
  {
    if unitId !in units then Err(Runtime(UnitNotFoundMessage(unitId)))
    else
      var unit := units[unitId];
      var leaseStart := unit.leaseStartDate;
      if leaseStart.None? || Before(effective, leaseStart.value) then Ok(unit.baseRentAmount)
      else if unit.baseRentAmount.None? then Err(Runtime(NullRentMessage))
      else Ok(Some(AdjustedRent(unit.baseRentAmount.value, leaseStart, effective)))
  }

  /** calculateOutstandingAmount: the adjusted rent at asOfDate times the whole months
      elapsed (the final rent applied to every month, as the source does), less all RENT
      payments of the unit whatever their status, floored at zero. */
  function CalculateOutstandingAmount(units: map<UnitId, PropertyUnit>, ps: seq<Payment>, unitId: UnitId, asOfDate: Date): (r: Result<Cents>)
    ensures r.Ok? ==> r.value >= 0
    ensures unitId !in units ==> r == Err(Runtime(UnitNotFoundMessage(unitId)))
    ensures unitId in units && (units[unitId].leaseStartDate.None? || Before(asOfDate, units[unitId].leaseStartDate.value)) ==>
      r == Ok(0)
    ensures unitId in units && units[unitId].leaseStartDate.Some? && !Before(asOfDate, units[unitId].leaseStartDate.value) ==>
      var unit := units[unitId];
      if unit.baseRentAmount.None? then r == Err(Runtime(NullRentMessage))
      else
        var expected := AdjustedRent(unit.baseRentAmount.value, unit.leaseStartDate, asOfDate)
                        * MonthsBetween(unit.leaseStartDate.value, asOfDate);
        var paid := TotalAmount(FindByPropertyUnitIdAndPaymentType(ps, unitId, Rent));
        r == Ok(if expected - paid > 0 then expected - paid else 0)
  {
    if unitId !in units then Err(Runtime(UnitNotFoundMessage(unitId)))
    else
      var leaseStart := units[unitId].leaseStartDate;
      if leaseStart.None? || Before(asOfDate, leaseStart.value) then Ok(0)
      else
        var monthsElapsed := MonthsBetween(leaseStart.value, asOfDate);
        match CalculateAdjustedRent(units, unitId, asOfDate)
        case Err(e) => Err(e)
        case Ok(current) =>
          if current.None? then Err(Runtime(NullRentMessage))
          else
            var expectedTotal := current.value * monthsElapsed;
            var totalPaidRent := GetTotalPaidAmount(ps, unitId, Rent);
            var outstanding := expectedTotal - totalPaidRent;
            Ok(if outstanding > 0 then outstanding else 0)
  }

  /** Appending a payment adds its amount to the total paid for its own unit and type,
      and leaves every other unit's and type's total as it was. */
  lemma TotalPaidAfterPayment(ps: seq<Payment>, x: Payment, unitId: UnitId, paymentType: PaymentType)
    ensures GetTotalPaidAmount(ps + [x], unitId, paymentType)
         == GetTotalPaidAmount(ps, unitId, paymentType)
            + (if x.unit == Some(unitId) && x.paymentType == paymentType then x.amount.GetOr(0) else 0)
  {
    var keep := OfUnitAndType(unitId, paymentType);
    FilterAppend(ps, x, keep);
    TotalAmountAppend(Filter(ps, keep), if keep(x) then [x] else []);
    if keep(x) {
      assert TotalAmount([x]) == x.amount.GetOr(0) + TotalAmount([]);
    }
  }

  /** Recording a RENT payment of a >= 0 for a unit lowers its outstanding balance by a,
      down to zero; a payment for another unit, or of another type, leaves it as it was. */
  lemma OutstandingAfterPayment(units: map<UnitId, PropertyUnit>, ps: seq<Payment>, x: Payment, unitId: UnitId, asOfDate: Date)
    requires x.amount.Some? && x.amount.value >= 0
    ensures var before := CalculateOutstandingAmount(units, ps, unitId, asOfDate);
            var after := CalculateOutstandingAmount(units, ps + [x], unitId, asOfDate);
            if x.unit == Some(unitId) && x.paymentType == Rent && before.Ok? then
              after == Ok(if before.value - x.amount.value > 0 then before.value - x.amount.value else 0)
            else after == before
  {
    var before := CalculateOutstandingAmount(units, ps, unitId, asOfDate);
    if x.unit == Some(unitId) && x.paymentType == Rent && before.Ok? {
      RentPaymentLowers(units, ps, x, unitId, asOfDate);
    } else {
      OtherPaymentNeutral(units, ps, x, unitId, asOfDate);
    }
  }

  lemma RentPaymentLowers(units: map<UnitId, PropertyUnit>, ps: seq<Payment>, x: Payment, unitId: UnitId, asOfDate: Date)
    requires x.amount.Some? && x.amount.value >= 0 && x.unit == Some(unitId) && x.paymentType == Rent
    requires CalculateOutstandingAmount(units, ps, unitId, asOfDate).Ok?
    ensures var before := CalculateOutstandingAmount(units, ps, unitId, asOfDate);
            CalculateOutstandingAmount(units, ps + [x], unitId, asOfDate)
            == Ok(if before.value - x.amount.value > 0 then before.value - x.amount.value else 0)
  {
    TotalPaidAfterPayment(ps, x, unitId, Rent);
    var paid := GetTotalPaidAmount(ps, unitId, Rent);
    if unitId in units && units[unitId].leaseStartDate.Some?
       && !Before(asOfDate, units[unitId].leaseStartDate.value) && units[unitId].baseRentAmount.Some? {
      var unit := units[unitId];
      var expected := AdjustedRent(unit.baseRentAmount.value, unit.leaseStartDate, asOfDate)
                      * MonthsBetween(unit.leaseStartDate.value, asOfDate);
      OutstandingFromPaid(units, ps, unitId, asOfDate);
      OutstandingFromPaid(units, ps + [x], unitId, asOfDate);
      FloorAfterPayment(expected, paid, x.amount.value);
    } else {
      OutstandingWithoutLedger(units, ps, ps + [x], unitId, asOfDate);
    }
  }

  lemma OtherPaymentNeutral(units: map<UnitId, PropertyUnit>, ps: seq<Payment>, x: Payment, unitId: UnitId, asOfDate: Date)
    requires !(x.unit == Some(unitId) && x.paymentType == Rent && CalculateOutstandingAmount(units, ps, unitId, asOfDate).Ok?)
    ensures CalculateOutstandingAmount(units, ps + [x], unitId, asOfDate)
         == CalculateOutstandingAmount(units, ps, unitId, asOfDate)
  {
    TotalPaidAfterPayment(ps, x, unitId, Rent);
    if unitId in units && units[unitId].leaseStartDate.Some?
       && !Before(asOfDate, units[unitId].leaseStartDate.value) && units[unitId].baseRentAmount.Some? {
      OutstandingFromPaid(units, ps, unitId, asOfDate);
      OutstandingFromPaid(units, ps + [x], unitId, asOfDate);
    } else {
      OutstandingWithoutLedger(units, ps, ps + [x], unitId, asOfDate);
    }
  }

  /** Flooring at zero before or after subtracting a non-negative payment is the same. */
  lemma FloorAfterPayment(expected: int, paid: int, a: int)
    requires a >= 0
    ensures var before := if expected - paid > 0 then expected - paid else 0;
            (if before - a > 0 then before - a else 0)
            == (if expected - (paid + a) > 0 then expected - (paid + a) else 0)
  {
  }

  /** Once the lease has started and the rent is set, the balance is the expected rent
      less the RENT total, floored at zero. */
  lemma OutstandingFromPaid(units: map<UnitId, PropertyUnit>, ps: seq<Payment>, unitId: UnitId, asOfDate: Date)
    requires unitId in units && units[unitId].leaseStartDate.Some? && units[unitId].baseRentAmount.Some?
    requires !Before(asOfDate, units[unitId].leaseStartDate.value)
    ensures var unit := units[unitId];
            var expected := AdjustedRent(unit.baseRentAmount.value, unit.leaseStartDate, asOfDate)
                            * MonthsBetween(unit.leaseStartDate.value, asOfDate);
            var paid := GetTotalPaidAmount(ps, unitId, Rent);
            CalculateOutstandingAmount(units, ps, unitId, asOfDate)
            == Ok(if expected - paid > 0 then expected - paid else 0)
  {
  }

  /** Outside that case the payments play no part in the result. */
  lemma OutstandingWithoutLedger(units: map<UnitId, PropertyUnit>, ps1: seq<Payment>, ps2: seq<Payment>, unitId: UnitId, asOfDate: Date)
    requires !(unitId in units && units[unitId].leaseStartDate.Some?
               && !Before(asOfDate, units[unitId].leaseStartDate.value) && units[unitId].baseRentAmount.Some?)
    ensures CalculateOutstandingAmount(units, ps1, unitId, asOfDate)
         == CalculateOutstandingAmount(units, ps2, unitId, asOfDate)
    ensures CalculateOutstandingAmount(units, ps1, unitId, asOfDate).Ok? ==>
            CalculateOutstandingAmount(units, ps1, unitId, asOfDate) == Ok(0)
  {
  }

  /** The outstanding balance does not depend on payment status: marking a payment PAID
      or PENDING leaves it as it was. */
  lemma OutstandingIgnoresStatus(units: map<UnitId, PropertyUnit>, ps: seq<Payment>, i: nat, status: PaymentStatus, unitId: UnitId, asOfDate: Date)
    requires i < |ps|
    ensures CalculateOutstandingAmount(units, ps[i := ps[i].(status := status)], unitId, asOfDate)
         == CalculateOutstandingAmount(units, ps, unitId, asOfDate)
  {
    TotalIgnoresOtherFields(ps[i := ps[i].(status := status)], ps, unitId, Rent);
  }

  /** Base rent 1000.00 from 2020-01-01 and no payments: on 2023-01-01, 36 months at the
      adjusted 1092.73 leave 39338.28 outstanding. */
  lemma ThreeYearsOutstanding()
    ensures CalculateOutstandingAmount(
              map[1 := PropertyUnit(Some(1), "1 Main Street", "Apartment", None, Some(100000), Some(YearMonthDay(2020, 1, 1)))],
              [], 1, YearMonthDay(2023, 1, 1))
            == Ok(3933828)
  {
    ThreeYearsAdjustment();
    MonthsBetweenCalendar(YearMonthDay(2020, 1, 1), YearMonthDay(2023, 1, 1));
    assert FindByPropertyUnitIdAndPaymentType([], 1, Rent) == [];
  }

  /** The ceiling rule of createPayment once the unit is resolved: it passes when the
      amount is null or at most three months of base rent, throws a business-rule
      violation above that, and dereferences a null base rent. */
  function CeilingCheck(amount: Option<Cents>, baseRent: Option<Cents>): (o: Outcome)
    ensures o == Done <==> amount.None? || (baseRent.Some? && amount.value <= 3 * baseRent.value)
    ensures o == Fail(BusinessRule(CeilingMessage)) <==> amount.Some? && baseRent.Some? && amount.value > 3 * baseRent.value
    ensures o == Fail(Runtime(NullRentMessage)) <==> amount.Some? && baseRent.None?
  {
    if amount.None? then Done
    else if baseRent.None? then Fail(Runtime(NullRentMessage))
    else if amount.value > CeilingMonths * baseRent.value then Fail(BusinessRule(CeilingMessage))
    else Done
  }

  /** createPayment: resolve the unit (an unknown id throws not-found), apply the ceiling
      rule, and only then store the payment under a fresh id. A payment that names no unit
      passes both checks and is refused by the store's non-null owning-unit column. */
  method CreatePayment(store: Ledger, payment: Payment) returns (r: Result<Payment>)
    requires store.Valid()
    modifies store
    ensures store.Valid()
    ensures store.units == old(store.units)
    ensures r.Err? ==> store.payments == old(store.payments)
    ensures payment.unit.None? ==> r == Err(Runtime(MissingUnitMessage))
    ensures payment.unit.Some? && payment.unit.value !in old(store.units) ==>
      r == Err(NotFound(UnitNotFoundMessage(payment.unit.value)))
    ensures payment.unit.Some? && payment.unit.value in old(store.units) ==>
      var check := CeilingCheck(payment.amount, old(store.units)[payment.unit.value].baseRentAmount);
      (check.Fail? ==> r == Err(check.error)) && (check == Done ==> r.Ok?)
    ensures r.Ok? ==>
      && r.value.id.Some?
      && r.value == payment.(id := r.value.id)
      && (forall q :: q in old(store.payments) ==> q.id != r.value.id)
      && store.payments == old(store.payments) + [r.value]
  {
    if payment.unit.Some? && payment.unit.value !in store.units {
      return Err(NotFound(UnitNotFoundMessage(payment.unit.value)));
    }
    if payment.unit.Some? {
      var check := CeilingCheck(payment.amount, store.units[payment.unit.value].baseRentAmount);
      if check.Fail? {
        return Err(check.error);
      }
    }
    if payment.unit.None? {
      return Err(Runtime(MissingUnitMessage));
    }
    var stored := store.InsertPayment(payment);
    r := Ok(stored);
  }

  /** The whitelisted copy of updatePayment: amount, date, type, description and status
      come from the request; id, owning unit and the legacy columns stay. */
  function CopyPaymentFields(existing: Payment, request: Payment): (r: Payment)
    ensures r.id == existing.id && r.unit == existing.unit
    ensures r.monthYear == existing.monthYear && r.appliedIndex == existing.appliedIndex
    ensures r.amount == request.amount && r.paymentDate == request.paymentDate
    ensures r.paymentType == request.paymentType && r.description == request.description
    ensures r.status == request.status
  {
    existing.(amount := request.amount, paymentDate := request.paymentDate,
              paymentType := request.paymentType, description := request.description,
              status := request.status)
  }

  /** A valid request keeps a payment valid across the whitelisted copy. */
  lemma CopyPaymentFieldsValid(existing: Payment, request: Payment, today: Date)
    requires ValidPayment(request, today)
    ensures ValidPayment(CopyPaymentFields(existing, request), today)
  {
  }

  /** updatePayment: an unknown id throws not-found and changes nothing; otherwise the
      stored row is overwritten with the whitelisted copy. The ceiling rule is not
      applied on update. */
  method UpdatePayment(store: Ledger, id: PaymentId, request: Payment) returns (r: Result<Payment>)
    requires store.Valid()
    modifies store
    ensures store.Valid()
    ensures store.units == old(store.units)
    ensures GetPaymentById(old(store.payments), id).Err? ==>
      r == Err(NotFound(PaymentNotFoundMessage(id))) && store.payments == old(store.payments)
    ensures GetPaymentById(old(store.payments), id).Ok? ==>
      && r == Ok(CopyPaymentFields(GetPaymentById(old(store.payments), id).value, request))
      && store.payments == ReplaceById(old(store.payments), r.value)
  {
    var found := GetPaymentById(store.payments, id);
    if found.Err? {
      return Err(found.error);
    }
    var updated := CopyPaymentFields(found.value, request);
    store.SavePayment(updated);
    r := Ok(updated);
  }

  /** deletePayment: an unknown id throws not-found and changes nothing; otherwise
      exactly that one row leaves the table. */
  method DeletePayment(store: Ledger, id: PaymentId) returns (r: Outcome)
    requires store.Valid()
    modifies store
    ensures store.Valid()
    ensures store.units == old(store.units)
    ensures GetPaymentById(old(store.payments), id).Err? ==>
      r == Fail(NotFound(PaymentNotFoundMessage(id))) && store.payments == old(store.payments)
    ensures GetPaymentById(old(store.payments), id).Ok? ==>
      && r == Done
      && store.payments == RemoveById(old(store.payments), id)
      && |store.payments| == |old(store.payments)| - 1
  {
    var found := GetPaymentById(store.payments, id);
    if found.Err? {
      return Fail(found.error);
    }
    ghost var i :| 0 <= i < |store.payments| && store.payments[i] == found.value;
    RemoveByIdRemovesOne(store.payments, id, i);
    store.DeletePayment(id);
    r := Done;
  }
}
