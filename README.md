# PropPilot rent accounting — a Dafny model

PropPilot is a Spring Boot back end that keeps a register of property units (address,
type, tenant, base monthly rent, lease start date) and of the payments recorded against
them (amount, date, type, status). This project models the part of it that holds the
business logic:

- the two entities and their validation constraints (`PropertyUnitEntity`, `PaymentEntity`);
- the payment queries and the `SUM` aggregate of the payment repository (`PaymentRepository`);
- the persistent store, with identity generation, the payment→unit foreign key and the
  cascade delete of a unit's payments, as a class `Store.Ledger` whose methods update it in place;
- the rent adjustment: 3% compounded per whole year of lease, rounded half-up to cents
  (`RentAdjustment`, built on `Dates` for `ChronoUnit.YEARS/MONTHS.between` and on
  `Money` for `BigDecimal` rounding);
- the payment service (create with the three-month ceiling, update, delete, totals,
  history, adjusted rent, outstanding balance) and the property-unit service (create,
  look up, update with the no-rent-decrease rule, cascade delete, case-insensitive
  address search).

Money is a whole number of cents. A nullable Java field is an `Option`; a
`NullPointerException` the Java code would throw is the `Runtime` error of the model's
`Result`, and each exception class of the services (`ResourceNotFoundException`,
`ValidationException`, `BusinessLogicException`, `RuntimeException`) is one constructor
of `Errors.Error`, carrying the same message text. Service queries read the store's
contents (`units`, `payments`) as values; service commands take the `Ledger` and say in
their postconditions exactly what its new state is.

## Model

| member | source | states |
|---|---|---|
| Dates.Before | src/main/java/com/prop_pilot/service/impl/PaymentServiceImpl.java:89 | `isBefore` compares year, then month, then day, strictly |
| Dates.BeforeStrictTotal | src/main/java/com/prop_pilot/service/impl/PaymentServiceImpl.java:89 | `isBefore` is irreflexive, asymmetric, transitive and total on distinct dates |
| Dates.PackedOrder | src/main/java/com/prop_pilot/service/impl/PaymentServiceImpl.java:89 | `isBefore` is lexicographic order on (year, month, day), and it coincides with the order of the packed month*32+day value that `between` measures |
| Dates.MonthsBetween | src/main/java/com/prop_pilot/service/impl/PaymentServiceImpl.java:131 | `ChronoUnit.MONTHS.between` as the truncated quotient of the packed dates: non-negative when the end is not before the start, non-positive otherwise |
| Dates.YearsBetween | src/main/java/com/prop_pilot/service/impl/PaymentServiceImpl.java:94 | `ChronoUnit.YEARS.between` as the month count divided by twelve, truncated: non-negative when the end is not before the start, non-positive otherwise |
| Dates.MonthsBetweenCalendar | src/main/java/com/prop_pilot/service/impl/PaymentServiceImpl.java:131 | from a start not after the end, the months elapsed are the calendar-month difference, less one when the end's day of month is smaller than the start's; never negative |
| Dates.MonthsBetweenIsWholeMonths | src/main/java/com/prop_pilot/service/impl/PaymentServiceImpl.java:131 | the months elapsed are the largest whole number of months whose anniversary day has been reached |
| Dates.YearsBetweenWholeYears | src/main/java/com/prop_pilot/service/impl/PaymentServiceImpl.java:94 | the years elapsed are non-negative and are the whole years contained in the months elapsed (12y <= m < 12(y+1)) |
| Dates.ElapsedMonotone | src/main/java/com/prop_pilot/service/impl/PaymentServiceImpl.java:94 | for a fixed start, a later end never yields fewer months or fewer years |
| Dates.YearsBetweenAnniversary | src/main/java/com/prop_pilot/service/impl/PaymentServiceImpl.java:94 | k years after a start whose day exists in the target month, exactly 12k months and k years have elapsed |
| Dates.PlusYears | src/main/java/com/prop_pilot/service/impl/PaymentServiceImpl.java:94 | the k-th anniversary of a date: same month, year moved by k, the day clamped to the month's length (never later than the original day) |
| Dates.LeapDayAnniversary | src/main/java/com/prop_pilot/service/impl/PaymentServiceImpl.java:94 | from 29 February 2020 to 28 February 2021 only 11 months and 0 years have elapsed |
| Errors.IntToString | src/main/java/com/prop_pilot/service/impl/PaymentServiceImpl.java:51 | `Long.toString`: a leading minus exactly for a negative value |
| Errors.NatToStringValue | src/main/java/com/prop_pilot/service/impl/PaymentServiceImpl.java:51 | the rendering of a natural number is its decimal numeral: read back, it gives the number |
| Errors.IntToStringValue | src/main/java/com/prop_pilot/service/impl/PaymentServiceImpl.java:51 | `Long.toString` is the decimal numeral of the value, after a minus sign when it is negative |
| Money.RoundHalfUp | src/main/java/com/prop_pilot/service/impl/PaymentServiceImpl.java:100 | the rounded quotient is within half a unit of the exact quotient, ties going away from zero, for either sign |
| Money.RoundExact | src/main/java/com/prop_pilot/service/impl/PaymentServiceImpl.java:100 | rounding a value that is already whole cents returns it unchanged |
| Money.RoundMonotone | src/main/java/com/prop_pilot/service/impl/PaymentServiceImpl.java:100 | half-up rounding preserves the order of non-negative exact values |
| Money.AmountConstraint | src/main/java/com/prop_pilot/entity/Payment.java:24-26 | an amount is at least 0.01 and has at most 8 digits before the decimal point (two after, by counting in cents) |
| Money.AmountConstraintRange | src/main/java/com/prop_pilot/entity/Payment.java:24-26 | a cent amount satisfies not-null, minimum 0.01 and at most 8 integer digits exactly when it lies between 1 and 9 999 999 999 cents |
| PropertyUnitEntity.NotBlank | src/main/java/com/prop_pilot/entity/PropertyUnit.java:21 | a string is not blank when some character is above the space character |
| PropertyUnitEntity.ValidUnit | src/main/java/com/prop_pilot/entity/PropertyUnit.java:20-43 | the declared constraints: address non-blank with 5 to 255 characters, type non-blank with 2 to 50, rent present within the amount constraint, lease start present and not after today |
| PropertyUnitEntity.ValidUnitFacts | src/main/java/com/prop_pilot/entity/PropertyUnit.java:20-43 | a valid unit has an address of 5 to 255 characters with a non-blank one, a type of 2 to 50, a positive rent of at most 8 integer digits and a lease start not after today |
| PaymentEntity.NewPayment | src/main/java/com/prop_pilot/entity/Payment.java:34-44 | a payment built without values has type RENT, status PAID and no id, unit, amount or date |
| PaymentEntity.ValidPayment | src/main/java/com/prop_pilot/entity/Payment.java:23-40 | the declared constraints: amount present within the amount constraint, date present and not after today, description absent or at most 500 characters |
| PaymentEntity.ValidPaymentFacts | src/main/java/com/prop_pilot/entity/Payment.java:23-40 | a valid payment has an amount between 0.01 and 99999999.99, a date not after today and a description of at most 500 characters |
| PaymentRepository.Filter | src/main/java/com/prop_pilot/repository/PaymentRepository.java:14-18 | a derived query returns a stored payment exactly when it matches the condition, and never more rows than the table holds |
| PaymentRepository.FilterCounts | src/main/java/com/prop_pilot/repository/PaymentRepository.java:14-18 | a derived query returns each matching payment as many times as it is stored, and no other payment |
| PaymentRepository.FindById | src/main/java/com/prop_pilot/service/impl/PaymentServiceImpl.java:50 | finds a stored payment with the given id exactly when one exists |
| PaymentRepository.FindByPropertyUnitId | src/main/java/com/prop_pilot/repository/PaymentRepository.java:14 | returns exactly the payments owned by the unit |
| PaymentRepository.FindByPropertyUnitIdAndStatus | src/main/java/com/prop_pilot/repository/PaymentRepository.java:15 | returns exactly the payments owned by the unit with the given status |
| PaymentRepository.FindByMonthYear | src/main/java/com/prop_pilot/repository/PaymentRepository.java:16 | returns exactly the payments whose legacy month-year field equals the argument |
| PaymentRepository.FindByPaymentType | src/main/java/com/prop_pilot/repository/PaymentRepository.java:17 | returns exactly the payments of the given type |
| PaymentRepository.FindByPropertyUnitIdAndPaymentType | src/main/java/com/prop_pilot/repository/PaymentRepository.java:18 | returns exactly the payments owned by the unit with the given type |
| PaymentRepository.FindByPropertyUnitIdAndPaymentDateBetween | src/main/java/com/prop_pilot/repository/PaymentRepository.java:23-24 | returns exactly the unit's payments dated within the range, both ends included; a payment without a date never matches |
| PaymentRepository.SqlSum | src/main/java/com/prop_pilot/repository/PaymentRepository.java:20 | SQL `SUM` is NULL exactly when every amount is NULL, and otherwise the total of the non-NULL amounts |
| PaymentRepository.SumAmountByPropertyUnitIdAndPaymentType | src/main/java/com/prop_pilot/repository/PaymentRepository.java:20-21 | the sum is NULL exactly when the unit has no payment of that type with an amount; otherwise it is the total of those payments' amounts |
| PaymentRepository.TotalAmountNonNegative | src/main/java/com/prop_pilot/repository/PaymentRepository.java:20 | a total of payments whose amounts are non-negative is non-negative |
| PaymentRepository.TotalIgnoresOtherFields | src/main/java/com/prop_pilot/repository/PaymentRepository.java:20 | the sum depends only on unit, type and amount: two stores whose payments agree on those give the same sum, whatever the status, date or description |
| PaymentRepository.EmptyRange | src/main/java/com/prop_pilot/repository/PaymentRepository.java:23-24 | a date range whose end is before its start selects nothing |
| Store.RemoveById | src/main/java/com/prop_pilot/service/impl/PaymentServiceImpl.java:78 | deleting by id keeps exactly the payments with another id |
| Store.RemoveOwnedBy | src/main/java/com/prop_pilot/entity/PropertyUnit.java:45 | the cascade keeps exactly the payments not owned by the deleted unit |
| Store.ReplaceById | src/main/java/com/prop_pilot/service/impl/PaymentServiceImpl.java:72 | saving an existing payment replaces the row with its id and leaves every other row and the order unchanged |
| Store.RemoveByIdRemovesOne | src/main/java/com/prop_pilot/service/impl/PaymentServiceImpl.java:78 | with distinct ids, deleting a stored payment removes exactly one row |
| Store.Ledger.Valid | src/main/java/com/prop_pilot/entity/Payment.java:14-21 | every unit is filed under its own generated id; every payment has a generated id, unique in the table, and an owning unit that exists |
| Store.Ledger.constructor | src/main/java/com/prop_pilot/repository/PaymentRepository.java:13 | a new store is empty and consistent |
| Store.Ledger.InsertUnit | src/main/java/com/prop_pilot/service/impl/PropertyUnitServiceImpl.java:20 | persisting a new unit gives it a fresh identity, stores it under that id and changes nothing else |
| Store.Ledger.SaveUnit | src/main/java/com/prop_pilot/service/impl/PropertyUnitServiceImpl.java:52 | saving an existing unit overwrites the row with its id and nothing else |
| Store.Ledger.DeleteUnit | src/main/java/com/prop_pilot/entity/PropertyUnit.java:45-47 | deleting a unit removes it and, by the cascade, exactly its payments; the store stays consistent |
| Store.Ledger.InsertPayment | src/main/java/com/prop_pilot/service/impl/PaymentServiceImpl.java:45 | persisting a payment of an existing unit appends it with a fresh identity, keeping ids distinct |
| Store.Ledger.SavePayment | src/main/java/com/prop_pilot/service/impl/PaymentServiceImpl.java:72 | saving an existing payment with its unit kept replaces that row only |
| Store.Ledger.DeletePayment | src/main/java/com/prop_pilot/service/impl/PaymentServiceImpl.java:78 | deleting a payment removes the rows with its id and nothing else |
| RentAdjustment.Compound | src/main/java/com/prop_pilot/service/impl/PaymentServiceImpl.java:97-100 | the compounded rent is base × 1.03^k rounded half-up to cents: within half a cent of the exact value |
| RentAdjustment.CompoundZeroYears | src/main/java/com/prop_pilot/service/impl/PaymentServiceImpl.java:98-100 | no whole year elapsed leaves the rent unchanged |
| RentAdjustment.CompoundStep | src/main/java/com/prop_pilot/service/impl/PaymentServiceImpl.java:98-100 | one more whole year never lowers a non-negative rent |
| RentAdjustment.CompoundMonotone | src/main/java/com/prop_pilot/service/impl/PaymentServiceImpl.java:98-100 | for a non-negative base, more years never give a lower rent |
| RentAdjustment.CompoundAtLeastBase | src/main/java/com/prop_pilot/service/impl/PaymentServiceImpl.java:98-100 | a non-negative base rent is never adjusted below itself |
| RentAdjustment.AdjustedRent | src/main/java/com/prop_pilot/service/impl/PaymentServiceImpl.java:86-100 | with no lease start, or before it, the rent is the base rent; otherwise it is the base compounded over the whole years elapsed, and never below the base |
| RentAdjustment.AdjustedRentFirstYear | src/main/java/com/prop_pilot/service/impl/PaymentServiceImpl.java:94-100 | during the first year of the lease the rent is the base rent |
| RentAdjustment.AdjustedRentNonDecreasing | src/main/java/com/prop_pilot/service/impl/PaymentServiceImpl.java:89-100 | a later effective date never gives a lower rent |
| RentAdjustment.AdjustedRentOnAnniversary | src/main/java/com/prop_pilot/service/impl/PaymentServiceImpl.java:94-100 | on the k-th anniversary (day present in that month) the rent is the base compounded k times |
| RentAdjustment.ThreeYearsAdjustment | src/main/java/com/prop_pilot/service/impl/PaymentServiceImpl.java:94-100 | a 1000.00 rent from 2020-01-01 is 1092.73 on 2023-01-01 |
| PaymentService.GetPaymentById | src/main/java/com/prop_pilot/service/impl/PaymentServiceImpl.java:49-51 | returns a stored payment carrying the id exactly when one exists, and otherwise not-found with "Payment not found with id: " and the id |
| PaymentService.GetPaymentByIdFindsStored | src/main/java/com/prop_pilot/service/impl/PaymentServiceImpl.java:49-51 | with unique payment ids, the lookup by a stored payment's id returns that very payment |
| PaymentService.GetOutstandingPayments | src/main/java/com/prop_pilot/service/impl/PaymentServiceImpl.java:104-105 | returns exactly the unit's PENDING payments |
| PaymentService.GetPaymentHistory | src/main/java/com/prop_pilot/service/impl/PaymentServiceImpl.java:115-116 | returns exactly the unit's payments dated within the range, both ends included, and none without a date |
| PaymentService.GetTotalPaidAmount | src/main/java/com/prop_pilot/service/impl/PaymentServiceImpl.java:109-111 | the total is the sum of the unit's payments of that type, and zero (never NULL) when the query sum is NULL |
| PaymentService.CalculateAdjustedRent | src/main/java/com/prop_pilot/service/impl/PaymentServiceImpl.java:82-101 | an unknown unit is a runtime error with the id; a unit with a rent gets the adjusted rent; a unit without a rent gets NULL before or without a lease and a null-pointer failure otherwise |
| PaymentService.CalculateOutstandingAmount | src/main/java/com/prop_pilot/service/impl/PaymentServiceImpl.java:120-143 | zero before or without a lease; otherwise the adjusted rent times the months elapsed, less all RENT payments, floored at zero; an unknown unit or missing rent fails; the result is never negative |
| PaymentService.TotalPaidAfterPayment | src/main/java/com/prop_pilot/service/impl/PaymentServiceImpl.java:109-111 | recording a payment adds its amount to its own unit's total of its own type and leaves every other total unchanged |
| PaymentService.OutstandingAfterPayment | src/main/java/com/prop_pilot/service/impl/PaymentServiceImpl.java:136-143 | a new RENT payment of a ≥ 0 lowers the unit's balance to max(old − a, 0); any other payment leaves it unchanged |
| PaymentService.OutstandingIgnoresStatus | src/main/java/com/prop_pilot/service/impl/PaymentServiceImpl.java:139 | a PENDING rent payment reduces the balance exactly as a PAID one does |
| PaymentService.ThreeYearsOutstanding | src/main/java/com/prop_pilot/service/impl/PaymentServiceImpl.java:131-143 | a 1000.00 lease from 2020-01-01 with no payments owes 36 × 1092.73 = 39338.28 on 2023-01-01 |
| PaymentService.CeilingCheck | src/main/java/com/prop_pilot/service/impl/PaymentServiceImpl.java:37-43 | a payment passes exactly when it has no unit or no amount, or its amount is at most three times the rent; above that it is a business-rule failure; a null rent with an amount fails with a null pointer |
| PaymentService.CreatePayment | src/main/java/com/prop_pilot/service/impl/PaymentServiceImpl.java:28-46 | an unknown unit is not-found, an amount over the ceiling a business-rule failure, a missing unit a constraint failure, each storing nothing; otherwise the payment is stored once, with a fresh id and the managed unit's id |
| PaymentService.CopyPaymentFields | src/main/java/com/prop_pilot/service/impl/PaymentServiceImpl.java:67-71 | an update takes amount, date, type, description and status from the request and keeps id, unit and the legacy fields |
| PaymentService.CopyPaymentFieldsValid | src/main/java/com/prop_pilot/service/impl/PaymentServiceImpl.java:67-71 | a valid request applied to any stored payment yields a valid payment |
| PaymentService.UpdatePayment | src/main/java/com/prop_pilot/service/impl/PaymentServiceImpl.java:64-73 | an unknown id is not-found and changes nothing; otherwise the row is replaced by the copied fields and every other row stays |
| PaymentService.DeletePayment | src/main/java/com/prop_pilot/service/impl/PaymentServiceImpl.java:75-79 | an unknown id is not-found and changes nothing; otherwise exactly that one payment is removed |
| PropertyUnitService.GetPropertyUnitById | src/main/java/com/prop_pilot/service/impl/PropertyUnitServiceImpl.java:24-26 | returns the stored unit, or not-found with "Property unit not found with id: " and the id |
| PropertyUnitService.GetPropertyUnitsByTenant | src/main/java/com/prop_pilot/repository/PropertyUnitRepository.java:10 | returns exactly the units whose tenant is the given one |
| PropertyUnitService.ContainsIgnoreCase | src/main/java/com/prop_pilot/repository/PropertyUnitRepository.java:11 | the address, upper-cased, contains the upper-cased query as a contiguous substring |
| PropertyUnitService.SearchPropertyUnits | src/main/java/com/prop_pilot/repository/PropertyUnitRepository.java:11 | returns exactly the units whose address contains the query, ignoring case |
| PropertyUnitService.SearchIgnoresCase | src/main/java/com/prop_pilot/repository/PropertyUnitRepository.java:11 | searching for the upper-case and the lower-case form of a query gives the same units |
| PropertyUnitService.SearchFindsVerbatimMatch | src/main/java/com/prop_pilot/repository/PropertyUnitRepository.java:11 | a unit whose address contains the query verbatim is always found |
| PropertyUnitService.SearchEmptyQuery | src/main/java/com/prop_pilot/repository/PropertyUnitRepository.java:11 | the empty query finds every unit |
| PropertyUnitService.CreatePropertyUnit | src/main/java/com/prop_pilot/service/impl/PropertyUnitServiceImpl.java:18-21 | the unit is stored under a fresh id, can then be looked up, and owns no payments |
| PropertyUnitService.RentCheck | src/main/java/com/prop_pilot/service/impl/PropertyUnitServiceImpl.java:44-46 | an update passes exactly when it gives no rent or a rent at least the current one; a lower rent is a validation failure; a null current rent fails with a null pointer |
| PropertyUnitService.ApplyUnitUpdate | src/main/java/com/prop_pilot/service/impl/PropertyUnitServiceImpl.java:48-51 | an update takes address, type, rent and lease start from the request and keeps id and tenant |
| PropertyUnitService.ApplyUnitUpdateValid | src/main/java/com/prop_pilot/service/impl/PropertyUnitServiceImpl.java:48-51 | a valid request applied to a stored unit yields a valid unit |
| PropertyUnitService.UpdatePropertyUnit | src/main/java/com/prop_pilot/service/impl/PropertyUnitServiceImpl.java:39-53 | an unknown id is not-found and a rent decrease a validation failure, both changing nothing; otherwise only that unit is overwritten, and a stored rent never decreases |
| PropertyUnitService.DeletePropertyUnit | src/main/java/com/prop_pilot/service/impl/PropertyUnitServiceImpl.java:55-59 | an unknown id is not-found and changes nothing; otherwise the unit and exactly its payments go, no payment is left orphaned, and other units keep their payments |

## Left out

- Controllers, HTTP status mapping, the OpenAPI configuration and the global exception handler's response body (path, timestamp): presentation only.
- The tenant entity and its service: a unit refers to its tenant by id only.
- `getAllPayments`, `getAllPropertyUnits` and `getPaymentsByPropertyUnit` return the stored collection or `FindByPropertyUnitId` unchanged; they are the fields `Ledger.payments`, `Ledger.units` and `PaymentRepository.FindByPropertyUnitId` themselves.
- Bean Validation and the database column checks run when a row is flushed; they are stated as `ValidUnit` / `ValidPayment` with lemmas, but the store does not reject a row for breaking them. Only the payment→unit foreign key is enforced.
- A request carrying an id of its own on create (a JPA merge) and a payment whose unit object has no id (a transient reference) are not modelled: create always assigns a fresh id.
- Persisting a unit's `payments` collection along with a new unit (cascade persist) is not modelled; a new unit owns no payments.
- The text of a `NullPointerException`, and Java's choice between null and an exception when a JSON body sets `paymentType` or `status` to null explicitly.
- Order of results: unit queries return maps keyed by id, and the payment queries' contracts fix contents and multiplicity but not the order the database returns.
- `Store.Ledger.InsertUnit`, `Store.Ledger.InsertPayment`: identity values grow without bound; the 64-bit `Long` range is not modelled.
- `RentAdjustment.Compound`: the `(int)` cast of the years elapsed and `BigDecimal.pow`'s exponent limit are not modelled (they matter only beyond 999 999 999 years); amounts are whole cents, so a scale beyond two decimals cannot be represented, and the numerical value — not the scale — of a returned rent is modelled.
- Dates are proleptic Gregorian dates without `LocalDate`'s year limits.
- `PropertyUnitService.SearchPropertyUnits`: case folding covers ASCII letters only, and lengths count characters, not UTF-16 code units.
- The clock (`today` in the validity predicates) is a parameter; transactions and concurrent requests are not modelled.

## Notes on behaviour

- The rule "k whole years after the lease start, k years have elapsed" fails for a lease starting on 29 February: on 28 February of the next year `ChronoUnit.YEARS.between` gives 0 (`Dates.LeapDayAnniversary`), so the first adjustment comes on 1 March. `Dates.YearsBetweenAnniversary` and `RentAdjustment.AdjustedRentOnAnniversary` therefore require the start's day to exist in the target month.
- The three-month ceiling is applied on create only and is not re-applied by `updatePayment` (`PaymentService.UpdatePayment`); an amount that breaks the entity constraints is then rejected when the row is flushed, which the model leaves out (see Left out).
- The outstanding balance multiplies the rent in force on the as-of date by every elapsed month, as the code does, rather than summing each year's own rent.
