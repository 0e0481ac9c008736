/** The property-unit service: registering, reading, updating and deleting units, and
    the by-tenant and address searches. */
module PropertyUnitService {
  import opened Errors
  import opened Money
  import opened Dates
  import opened PropertyUnitEntity
  import opened PaymentEntity
  import opened PaymentRepository
  import opened Store

  const RentDecreaseMessage: string := "New rent amount cannot be lower than current rent amount"

  /** getPropertyUnitById */
  function GetPropertyUnitById(units: map<UnitId, PropertyUnit>, id: UnitId): (r: Result<PropertyUnit>)
    ensures r.Ok? <==> id in units
    ensures r.Ok? ==> r.value == units[id]
    ensures r.Err? ==> r.error == NotFound(UnitNotFoundMessage(id))
  {
    if id in units then Ok(units[id]) else Err(NotFound(UnitNotFoundMessage(id)))
  }

  /** getPropertyUnitsByTenant: exactly the units whose tenant is the given one. */
  function GetPropertyUnitsByTenant(units: map<UnitId, PropertyUnit>, tenantId: TenantId): (r: map<UnitId, PropertyUnit>)
    ensures forall k :: k in r <==> k in units && units[k].tenant == Some(tenantId)
    ensures forall k :: k in r ==> r[k] == units[k]
  {
    map k | k in units && units[k].tenant == Some(tenantId) :: units[k]
  }

  /** SQL upper() on one character; only the ASCII letters are folded. */
  function UpperChar(c: char): (u: char)
    ensures !('a' <= u <= 'z')
  {
    if 'a' <= c <= 'z' then (c as int - 32) as char else c
  }

  function LowerChar(c: char): char {
    if 'A' <= c <= 'Z' then (c as int + 32) as char else c
  }

  function Upper(s: string): (r: string)
    ensures |r| == |s|
    ensures forall i :: 0 <= i < |s| ==> r[i] == UpperChar(s[i])
  {
    seq(|s|, i requires 0 <= i < |s| => UpperChar(s[i]))
  }

  function Lower(s: string): (r: string)
    ensures |r| == |s|
    ensures forall i :: 0 <= i < |s| ==> r[i] == LowerChar(s[i])
  {
    seq(|s|, i requires 0 <= i < |s| => LowerChar(s[i]))
  }

  /** `q` occurs in `s` starting at position i. */
  predicate OccursAt(s: string, q: string, i: int) {
    0 <= i <= |s| - |q| && s[i..i + |q|] == q
  }

  /** `s` contains `q` as a contiguous substring. */
  predicate Contains(s: string, q: string) {
    exists i :: 0 <= i <= |s| - |q| && OccursAt(s, q, i)
  }

  /** The `ContainingIgnoreCase` condition: upper(address) LIKE upper('%q%'). */
  predicate ContainsIgnoreCase(s: string, q: string) {
    Contains(Upper(s), Upper(q))
  }

  /** searchPropertyUnits: the units whose address contains the query, ignoring case. */
  function SearchPropertyUnits(units: map<UnitId, PropertyUnit>, address: string): (r: map<UnitId, PropertyUnit>)
    ensures forall k :: k in r <==> k in units && ContainsIgnoreCase(units[k].address, address)
    ensures forall k :: k in r ==> r[k] == units[k]
  {
    map k | k in units && ContainsIgnoreCase(units[k].address, address) :: units[k]
  }

  /** Upper-casing or lower-casing the query does not change what the search finds. */
  lemma SearchIgnoresCase(units: map<UnitId, PropertyUnit>, q: string)
    ensures SearchPropertyUnits(units, Upper(q)) == SearchPropertyUnits(units, q)
    ensures SearchPropertyUnits(units, Lower(q)) == SearchPropertyUnits(units, q)
  {
    assert Upper(Upper(q)) == Upper(q);
    assert Upper(Lower(q)) == Upper(q);
  }

  /** A unit whose address contains the query verbatim is found. */
  lemma SearchFindsVerbatimMatch(units: map<UnitId, PropertyUnit>, q: string, k: UnitId)
    requires k in units && Contains(units[k].address, q)
    ensures k in SearchPropertyUnits(units, q)
  {
    var s := units[k].address;
    var i :| 0 <= i <= |s| - |q| && OccursAt(s, q, i);
    assert Upper(s)[i..i + |q|] == Upper(q) by {
      forall j | 0 <= j < |q| ensures Upper(s)[i..i + |q|][j] == Upper(q)[j] {
        assert s[i..i + |q|][j] == q[j];
      }
    }
    assert OccursAt(Upper(s), Upper(q), i);
  }

  /** The empty query matches every unit. */
  lemma SearchEmptyQuery(units: map<UnitId, PropertyUnit>)
    ensures SearchPropertyUnits(units, "") == units
  {
    forall k | k in units ensures ContainsIgnoreCase(units[k].address, "") {
      assert OccursAt(Upper(units[k].address), Upper(""), 0);
    }
  }

  /** createPropertyUnit: the unit is stored as given under a fresh id, owns no payments
      yet, and reading it back returns the stored record. */
  method CreatePropertyUnit(store: Ledger, unit: PropertyUnit) returns (stored: PropertyUnit)
    requires store.Valid()
    modifies store
    ensures store.Valid()
    ensures stored.id.Some? && stored.id.value !in old(store.units)
    ensures stored == unit.(id := stored.id)
    ensures store.units == old(store.units)[stored.id.value := stored]
    ensures store.payments == old(store.payments)
    ensures GetPropertyUnitById(store.units, stored.id.value) == Ok(stored)
    ensures FindByPropertyUnitId(store.payments, stored.id.value) == []
  {
    stored := store.InsertUnit(unit);
    assert forall p :: p in store.payments ==> p.unit.value in old(store.units);
    FilterNone(store.payments, OwnedBy(stored.id.value));
  }

  /** The whitelisted copy of updatePropertyUnit: address, type, base rent and lease
      start come from the request (a null rent included); id and tenant stay. */
  function ApplyUnitUpdate(existing: PropertyUnit, request: PropertyUnit): (r: PropertyUnit)
    ensures r.id == existing.id && r.tenant == existing.tenant
    ensures r.address == request.address && r.unitType == request.unitType
    ensures r.baseRentAmount == request.baseRentAmount && r.leaseStartDate == request.leaseStartDate
  {
    existing.(address := request.address, unitType := request.unitType,
              baseRentAmount := request.baseRentAmount, leaseStartDate := request.leaseStartDate)
  }

  /** The rent rule of updatePropertyUnit: a null new rent skips it; a new rent below the
      current one is a validation failure; comparing against a null current rent
      dereferences it. */
  function RentCheck(current: Option<Cents>, requested: Option<Cents>): (o: Outcome)
    ensures o == Done <==> requested.None? || (current.Some? && requested.value >= current.value)
    ensures o == Fail(Validation(RentDecreaseMessage)) <==>
      requested.Some? && current.Some? && requested.value < current.value
    ensures o == Fail(Runtime(NullRentMessage)) <==> requested.Some? && current.None?
  {
    if requested.None? then Done
    else if current.None? then Fail(Runtime(NullRentMessage))
    else if requested.value < current.value then Fail(Validation(RentDecreaseMessage))
    else Done
  }

  /** A valid request keeps a unit valid across the whitelisted copy. */
  lemma ApplyUnitUpdateValid(existing: PropertyUnit, request: PropertyUnit, today: Date)
    requires ValidUnit(request, today)
    ensures ValidUnit(ApplyUnitUpdate(existing, request), today)
  {
  }

  /** updatePropertyUnit: an unknown id throws not-found; a failed rent rule throws; in
      both cases nothing is saved. Otherwise the whitelisted copy overwrites the stored
      unit, and a non-null rent never goes down. */
  method UpdatePropertyUnit(store: Ledger, id: UnitId, request: PropertyUnit) returns (r: Result<PropertyUnit>)
    requires store.Valid()
    modifies store
    ensures store.Valid()
    ensures store.payments == old(store.payments)
    ensures id !in old(store.units) ==>
      r == Err(NotFound(UnitNotFoundMessage(id))) && store.units == old(store.units)
    ensures id in old(store.units) ==>
      var check := RentCheck(old(store.units)[id].baseRentAmount, request.baseRentAmount);
      && (check.Fail? ==> r == Err(check.error) && store.units == old(store.units))
      && (check == Done ==>
            r == Ok(ApplyUnitUpdate(old(store.units)[id], request))
            && store.units == old(store.units)[id := r.value])
    ensures r.Ok? && old(store.units)[id].baseRentAmount.Some? && r.value.baseRentAmount.Some? ==>
      r.value.baseRentAmount.value >= old(store.units)[id].baseRentAmount.value
  {
    var found := GetPropertyUnitById(store.units, id);
    if found.Err? {
      return Err(found.error);
    }
    var existing := found.value;
    var check := RentCheck(existing.baseRentAmount, request.baseRentAmount);
    if check.Fail? {
      return Err(check.error);
    }
    var updated := ApplyUnitUpdate(existing, request);
    store.SaveUnit(updated);
    r := Ok(updated);
  }

  /** deletePropertyUnit: an unknown id throws not-found and changes nothing; otherwise
      the unit goes, and with it every payment it owns, while every other unit's
      payments stay exactly as they were. */
  method DeletePropertyUnit(store: Ledger, id: UnitId) returns (r: Outcome)
    requires store.Valid()
    modifies store
    ensures store.Valid()
    ensures id !in old(store.units) ==>
      r == Fail(NotFound(UnitNotFoundMessage(id)))
      && store.units == old(store.units) && store.payments == old(store.payments)
    ensures id in old(store.units) ==>
      && r == Done
      && store.units == old(store.units) - {id}
      && store.payments == RemoveOwnedBy(old(store.payments), id)
      && FindByPropertyUnitId(store.payments, id) == []
      && forall v :: v != id ==> FindByPropertyUnitId(store.payments, v) == FindByPropertyUnitId(old(store.payments), v)
  {
    var found := GetPropertyUnitById(store.units, id);
    if found.Err? {
      return Fail(found.error);
    }
    ghost var before := store.payments;
    store.DeleteUnit(id);
    forall v | v != id
      ensures FindByPropertyUnitId(store.payments, v) == FindByPropertyUnitId(before, v)
    {
      FilterNarrow(before, NotOwnedBy(id), OwnedBy(v));
    }
    FilterNone(store.payments, OwnedBy(id));
    r := Done;
  }
}
