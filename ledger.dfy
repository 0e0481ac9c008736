/** The persistence layer the two services share: the property-unit table, keyed by id,
    and the payment table in insertion order. Identity generation is a counter per table;
    the foreign key from a payment to its unit is non-null, and deleting a unit cascades
    to the payments it owns. */
module Store {
  import opened Errors
  import opened PropertyUnitEntity
  import opened PaymentEntity
  import opened PaymentRepository

  /** No two rows of the payment table share an id. */
  ghost predicate DistinctIds(ps: seq<Payment>) {
    forall i, j :: 0 <= i < j < |ps| ==> ps[i].id != ps[j].id
  }

  /** A payment row as the store keeps it: an assigned id and an existing owning unit. */
  ghost predicate StoredPayment(p: Payment, units: map<UnitId, PropertyUnit>, nextId: PaymentId) {
    p.id.Some? && 1 <= p.id.value < nextId && p.unit.Some? && p.unit.value in units
  }

  function WithoutId(id: PaymentId): Payment -> bool {
    (p: Payment) => p.id != Some(id)
  }

  function NotOwnedBy(unitId: UnitId): Payment -> bool {
    (p: Payment) => p.unit != Some(unitId)
  }

  /** The payment table after deleting the row with the given id. */
  function RemoveById(ps: seq<Payment>, id: PaymentId): (r: seq<Payment>)
    ensures forall q :: q in r <==> q in ps && q.id != Some(id)
  {
    Filter(ps, WithoutId(id))
  }

  /** The payment table after the cascade from deleting a unit. */
  function RemoveOwnedBy(ps: seq<Payment>, unitId: UnitId): (r: seq<Payment>)
    ensures forall q :: q in r <==> q in ps && q.unit != Some(unitId)
  {
    Filter(ps, NotOwnedBy(unitId))
  }

  /** The payment table after saving a record whose id is already present: the row with
      that id now holds the record, every other row is as it was. */
  function ReplaceById(ps: seq<Payment>, x: Payment): (r: seq<Payment>)
    ensures |r| == |ps|
    ensures forall i :: 0 <= i < |r| ==> r[i].id == ps[i].id
    ensures forall i :: 0 <= i < |r| && ps[i].id != x.id ==> r[i] == ps[i]
    ensures forall i :: 0 <= i < |r| && ps[i].id == x.id ==> r[i] == x
  {
    seq(|ps|, i requires 0 <= i < |ps| => if ps[i].id == x.id then x else ps[i])
  }

  lemma {:induction false} FilterKeepsDistinctIds(ps: seq<Payment>, keep: Payment -> bool)
    requires DistinctIds(ps)
    ensures DistinctIds(Filter(ps, keep))
  {
    if ps != [] {
      var tail := ps[1..];
      TailDistinct(ps);
      HeadIdFresh(ps);
      FilterKeepsDistinctIds(tail, keep);
      var rest := Filter(tail, keep);
      if keep(ps[0]) {
        var r := [ps[0]] + rest;
        forall i, j | 0 <= i < j < |r| ensures r[i].id != r[j].id {
          assert r[j] == rest[j - 1] && rest[j - 1] in rest;
          if i > 0 {
            assert r[i] == rest[i - 1];
          }
        }
      }
    }
  }

  lemma TailDistinct(ps: seq<Payment>)
    requires DistinctIds(ps) && ps != []
    ensures DistinctIds(ps[1..])
  {
    var tail := ps[1..];
    forall i, j | 0 <= i < j < |tail| ensures tail[i].id != tail[j].id {
      assert tail[i] == ps[i + 1] && tail[j] == ps[j + 1];
    }
  }

  lemma HeadIdFresh(ps: seq<Payment>)
    requires DistinctIds(ps) && ps != []
    ensures forall q :: q in ps[1..] ==> q.id != ps[0].id
  {
    forall q | q in ps[1..] ensures q.id != ps[0].id {
      var k :| 0 <= k < |ps[1..]| && ps[1..][k] == q;
      assert ps[k + 1] == q;
    }
  }

  lemma {:induction false} FilterKeepsAll(ps: seq<Payment>, keep: Payment -> bool)
    requires forall p :: p in ps ==> keep(p)
    ensures Filter(ps, keep) == ps
  {
    if ps != [] {
      assert ps[0] in ps;
      assert forall p :: p in ps[1..] ==> p in ps;
      FilterKeepsAll(ps[1..], keep);
      assert ps == [ps[0]] + ps[1..];
    }
  }

  /** With distinct ids, deleting by the id of a stored row removes exactly one row. */
  lemma {:induction false} RemoveByIdRemovesOne(ps: seq<Payment>, id: PaymentId, i: nat)
    requires DistinctIds(ps) && i < |ps| && ps[i].id == Some(id)
    ensures |RemoveById(ps, id)| == |ps| - 1
  {
    var tail := ps[1..];
    TailDistinct(ps);
    if i == 0 {
      HeadIdFresh(ps);
      FilterKeepsAll(tail, WithoutId(id));
    } else {
      assert tail[i - 1] == ps[i];
      RemoveByIdRemovesOne(tail, id, i - 1);
      assert ps[0].id != Some(id);
    }
  }

  class Ledger {
    var units: map<UnitId, PropertyUnit>
    var payments: seq<Payment>
    var nextUnitId: UnitId
    var nextPaymentId: PaymentId

    /** Every unit is filed under its own id, every payment has an id the counter has
        handed out and an owning unit that exists, and payment ids are unique. */
    ghost predicate Valid()
      reads this
    {
      && 1 <= nextUnitId && 1 <= nextPaymentId
      && (forall k :: k in units ==> units[k].id == Some(k) && 1 <= k < nextUnitId)
      && (forall p :: p in payments ==> StoredPayment(p, units, nextPaymentId))
      && DistinctIds(payments)
    }

    constructor ()
      ensures Valid()
      ensures units == map[] && payments == []
    {
      units := map[];
      payments := [];
      nextUnitId := 1;
      nextPaymentId := 1;
    }

    /** save of a new unit: the unit is stored as given under a freshly generated id. */
    method InsertUnit(u: PropertyUnit) returns (stored: PropertyUnit)
      requires Valid()
      modifies this
      ensures Valid()
      ensures stored == u.(id := Some(old(nextUnitId)))
      ensures old(nextUnitId) !in old(units)
      ensures units == old(units)[old(nextUnitId) := stored]
      ensures payments == old(payments)
    {
      stored := u.(id := Some(nextUnitId));
      units := units[nextUnitId := stored];
      nextUnitId := nextUnitId + 1;
    }

    /** save of an existing unit: its row is overwritten. */
    method SaveUnit(u: PropertyUnit)
      requires Valid()
      requires u.id.Some? && u.id.value in units
      modifies this
      ensures Valid()
      ensures units == old(units)[u.id.value := u]
      ensures payments == old(payments)
      ensures nextUnitId == old(nextUnitId) && nextPaymentId == old(nextPaymentId)
    {
      units := units[u.id.value := u];
    }

    /** delete of a unit, cascading to every payment it owns. */
    method DeleteUnit(k: UnitId)
      requires Valid()
      requires k in units
      modifies this
      ensures Valid()
      ensures units == old(units) - {k}
      ensures payments == RemoveOwnedBy(old(payments), k)
      ensures nextUnitId == old(nextUnitId) && nextPaymentId == old(nextPaymentId)
    {
      FilterKeepsDistinctIds(payments, NotOwnedBy(k));
      units := units - {k};
      payments := RemoveOwnedBy(payments, k);
    }

    /** save of a new payment: appended under a freshly generated id. */
    method InsertPayment(p: Payment) returns (stored: Payment)
      requires Valid()
      requires p.unit.Some? && p.unit.value in units
      modifies this
      ensures Valid()
      ensures stored == p.(id := Some(old(nextPaymentId)))
      ensures forall q :: q in old(payments) ==> q.id != stored.id
      ensures payments == old(payments) + [stored]
      ensures units == old(units) && nextUnitId == old(nextUnitId)
    {
      stored := p.(id := Some(nextPaymentId));
      var r := payments + [stored];
      forall i, j | 0 <= i < j < |r| ensures r[i].id != r[j].id {
        assert r[i] == payments[i] && payments[i] in payments;
        if j < |payments| {
          assert r[j] == payments[j];
        }
      }
      payments := r;
      nextPaymentId := nextPaymentId + 1;
    }

    /** save of an existing payment: the row with its id is overwritten. */
    method SavePayment(p: Payment)
      requires Valid()
      requires exists q :: q in payments && q.id == p.id && q.unit == p.unit
      modifies this
      ensures Valid()
      ensures payments == ReplaceById(old(payments), p)
      ensures units == old(units)
      ensures nextUnitId == old(nextUnitId) && nextPaymentId == old(nextPaymentId)
    {
      var q :| q in payments && q.id == p.id && q.unit == p.unit;
      var r := ReplaceById(payments, p);
      forall x | x in r ensures StoredPayment(x, units, nextPaymentId) {
        var i :| 0 <= i < |r| && r[i] == x;
        assert payments[i] in payments;
      }
      payments := r;
    }

    /** delete of a payment by id. */
    method DeletePayment(id: PaymentId)
      requires Valid()
      modifies this
      ensures Valid()
      ensures payments == RemoveById(old(payments), id)
      ensures units == old(units)
      ensures nextUnitId == old(nextUnitId) && nextPaymentId == old(nextPaymentId)
    {
      FilterKeepsDistinctIds(payments, WithoutId(id));
      payments := RemoveById(payments, id);
    }
  }
}
