/** Client code exercising the services, verified against their contracts alone. */
module Scenarios {
  import opened Errors
  import opened Dates
  import opened PropertyUnitEntity
  import opened PaymentEntity
  import opened PaymentRepository
  import opened Store
  import PaymentService
  import PropertyUnitService

  /** Rent 500.00: a payment of 2000.00 exceeds three months (1500.00) and is refused with
      nothing stored; a payment of exactly 1500.00 is accepted. */
  method OversizedPaymentRefused() {
    var store := new Ledger();
    var unit := store.InsertUnit(
      PropertyUnit(None, "12 Elm Road", "House", None, Some(50000), Some(YearMonthDay(2024, 3, 1))));
    var u := unit.id.value;
    var draft := NewPayment().(unit := Some(u), paymentDate := Some(YearMonthDay(2024, 4, 1)));
    var r := PaymentService.CreatePayment(store, draft.(amount := Some(200000)));
    assert r == Err(BusinessRule(PaymentService.CeilingMessage));
    assert store.payments == [];
    r := PaymentService.CreatePayment(store, draft.(amount := Some(150000)));
    assert r.Ok? && |store.payments| == 1;
    assert r.value.paymentType == Rent && r.value.status == Paid;
  }

  /** Rent 1000.00 lowered to 900.00: a validation failure, and the stored unit is as it
      was; an unknown id is reported with the id in the message. */
  method RentDecreaseRefused() {
    var store := new Ledger();
    var unit := store.InsertUnit(
      PropertyUnit(None, "123 Test Street", "Apartment", None, Some(100000), Some(YearMonthDay(2020, 1, 1))));
    var u := unit.id.value;
    var r := PropertyUnitService.UpdatePropertyUnit(store, u, unit.(baseRentAmount := Some(90000)));
    assert r == Err(Validation(PropertyUnitService.RentDecreaseMessage));
    assert store.units[u] == unit;
    var missing := PropertyUnitService.GetPropertyUnitById(store.units, u + 1);
    assert missing == Err(NotFound(UnitNotFoundMessage(u + 1)));
  }
}
