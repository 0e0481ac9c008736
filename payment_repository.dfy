/** The derived queries of the payment repository, over the payment table held as a
    sequence in store order. Each query is a filter that keeps the store order; the
    aggregate follows SQL, where SUM skips NULL amounts and is NULL over no values. */
module PaymentRepository {
  import opened Errors
  import opened Dates
  import opened Money
  import opened PropertyUnitEntity
  import opened PaymentEntity

  /** The rows of `ps` that satisfy `keep`, in their original order. */
  function Filter(ps: seq<Payment>, keep: Payment -> bool): (r: seq<Payment>)
    ensures |r| <= |ps|
    ensures forall p :: p in r <==> p in ps && keep(p)
  {
    if ps == [] then []
    else
      var rest := Filter(ps[1..], keep);
      assert ps == [ps[0]] + ps[1..];
      if keep(ps[0]) then [ps[0]] + rest else rest
  }

  /** A filter keeps every row it passes as many times as the table holds it, and no
      other row. */
  lemma {:induction false} FilterCounts(ps: seq<Payment>, keep: Payment -> bool)
    ensures forall p :: multiset(Filter(ps, keep))[p] == if keep(p) then multiset(ps)[p] else 0
  {
    if ps != [] {
      FilterCounts(ps[1..], keep);
      assert ps == [ps[0]] + ps[1..];
    }
  }

  /** A filter that passes no row of the table selects nothing. */
  lemma {:induction false} FilterNone(ps: seq<Payment>, keep: Payment -> bool)
    requires forall p :: p in ps ==> !keep(p)
    ensures Filter(ps, keep) == []
  {
    if ps != [] {
      assert ps[0] in ps;
      assert forall p :: p in ps[1..] ==> p in ps;
      FilterNone(ps[1..], keep);
    }
  }

  /** findById: the row with the given id, if any. */
  function FindById(ps: seq<Payment>, id: PaymentId): (r: Option<Payment>)
    ensures r.Some? ==> r.value in ps && r.value.id == Some(id)
    ensures r.None? <==> forall p :: p in ps ==> p.id != Some(id)
  {
    if ps == [] then None
    else
      assert forall p :: p in ps <==> p == ps[0] || p in ps[1..];
      if ps[0].id == Some(id) then Some(ps[0]) else FindById(ps[1..], id)
  }

  /** The condition of the by-unit query: the payment is owned by the unit. */
  function OwnedBy(unitId: UnitId): Payment -> bool {
    (p: Payment) => p.unit == Some(unitId)
  }

  /** findByPropertyUnitId */
  function FindByPropertyUnitId(ps: seq<Payment>, unitId: UnitId): (r: seq<Payment>)
    ensures forall p :: p in r <==> p in ps && p.unit == Some(unitId)
  {
    Filter(ps, OwnedBy(unitId))
  }

  /** findByPropertyUnitIdAndStatus */
  function FindByPropertyUnitIdAndStatus(ps: seq<Payment>, unitId: UnitId, status: PaymentStatus): (r: seq<Payment>)
    ensures forall p :: p in r <==> p in ps && p.unit == Some(unitId) && p.status == status
  {
    Filter(ps, (p: Payment) => p.unit == Some(unitId) && p.status == status)
  }

  /** findByMonthYear, over the legacy column. */
  function FindByMonthYear(ps: seq<Payment>, monthYear: string): (r: seq<Payment>)
    ensures forall p :: p in r <==> p in ps && p.monthYear == Some(monthYear)
  {
    Filter(ps, (p: Payment) => p.monthYear == Some(monthYear))
  }

  /** findByPaymentType */
  function FindByPaymentType(ps: seq<Payment>, paymentType: PaymentType): (r: seq<Payment>)
    ensures forall p :: p in r <==> p in ps && p.paymentType == paymentType
  {
    Filter(ps, (p: Payment) => p.paymentType == paymentType)
  }

  /** The condition of the unit-and-type queries. */
  function OfUnitAndType(unitId: UnitId, paymentType: PaymentType): Payment -> bool {
    (p: Payment) => p.unit == Some(unitId) && p.paymentType == paymentType
  }

  /** findByPropertyUnitIdAndPaymentType */
  function FindByPropertyUnitIdAndPaymentType(ps: seq<Payment>, unitId: UnitId, paymentType: PaymentType): (r: seq<Payment>)
    ensures forall p :: p in r <==> p in ps && p.unit == Some(unitId) && p.paymentType == paymentType
  {
    Filter(ps, OfUnitAndType(unitId, paymentType))
  }

  /** SQL's `d BETWEEN lo AND hi`: inclusive at both ends, false for a NULL date. */
  predicate DateBetween(d: Option<Date>, lo: Date, hi: Date) {
    d.Some? && !Before(d.value, lo) && !After(d.value, hi)
  }

  /** The condition of the date-range query. */
  function OwnedWithin(unitId: UnitId, startDate: Date, endDate: Date): Payment -> bool {
    (p: Payment) => p.unit == Some(unitId) && DateBetween(p.paymentDate, startDate, endDate)
  }

  /** findByPropertyUnitIdAndPaymentDateBetween */
  function FindByPropertyUnitIdAndPaymentDateBetween(ps: seq<Payment>, unitId: UnitId, startDate: Date, endDate: Date): (r: seq<Payment>)
    ensures forall p :: p in r <==> p in ps && p.unit == Some(unitId) && DateBetween(p.paymentDate, startDate, endDate)
  {
    Filter(ps, OwnedWithin(unitId, startDate, endDate))
  }

  /** The arithmetic total of the non-null amounts. */
  function TotalAmount(ps: seq<Payment>): Cents {
    if ps == [] then 0 else ps[0].amount.GetOr(0) + TotalAmount(ps[1..])
  }

  /** SQL SUM over the amount column: NULL amounts are skipped, and the result is NULL
      when no row has a non-null amount (in particular when there are no rows). */
  function SqlSum(ps: seq<Payment>): (r: Option<Cents>)
    ensures r.None? <==> forall p :: p in ps ==> p.amount.None?
    ensures r.Some? ==> r.value == TotalAmount(ps)
  {
    if ps == [] then None
    else
      var rest := SqlSum(ps[1..]);
      assert forall p :: p in ps <==> p == ps[0] || p in ps[1..];
      NullsTotalZero(ps[1..]);
      match ps[0].amount
      case None => rest
      case Some(a) => Some(a + rest.GetOr(0))
  }

  lemma {:induction false} NullsTotalZero(ps: seq<Payment>)
    ensures (forall p :: p in ps ==> p.amount.None?) ==> TotalAmount(ps) == 0
  {
    if ps != [] && forall p :: p in ps ==> p.amount.None? {
      assert ps[0] in ps;
      assert forall p :: p in ps[1..] ==> p in ps;
      NullsTotalZero(ps[1..]);
    }
  }

  /** sumAmountByPropertyUnitIdAndPaymentType */
  function SumAmountByPropertyUnitIdAndPaymentType(ps: seq<Payment>, unitId: UnitId, paymentType: PaymentType): (r: Option<Cents>)
    ensures r.None? <==> forall p :: p in ps && p.unit == Some(unitId) && p.paymentType == paymentType ==> p.amount.None?
    ensures r.Some? ==> r.value == TotalAmount(FindByPropertyUnitIdAndPaymentType(ps, unitId, paymentType))
  {
    SqlSum(FindByPropertyUnitIdAndPaymentType(ps, unitId, paymentType))
  }

  lemma {:induction false} TotalAmountAppend(a: seq<Payment>, b: seq<Payment>)
    ensures TotalAmount(a + b) == TotalAmount(a) + TotalAmount(b)
  {
    if a != [] {
      assert (a + b)[0] == a[0];
      assert (a + b)[1..] == a[1..] + b;
      TotalAmountAppend(a[1..], b);
    } else {
      assert a + b == b;
    }
  }

  /** Adding a row at the end of the table adds it at the end of every filter it passes. */
  lemma {:induction false} FilterAppend(ps: seq<Payment>, x: Payment, keep: Payment -> bool)
    ensures Filter(ps + [x], keep) == Filter(ps, keep) + (if keep(x) then [x] else [])
  {
    if ps != [] {
      assert (ps + [x])[1..] == ps[1..] + [x];
      FilterAppend(ps[1..], x, keep);
    }
  }

  /** Filtering by a stricter condition after a looser one is filtering by the stricter. */
  lemma {:induction false} FilterNarrow(ps: seq<Payment>, loose: Payment -> bool, strict: Payment -> bool)
    requires forall p :: strict(p) ==> loose(p)
    ensures Filter(Filter(ps, loose), strict) == Filter(ps, strict)
  {
    if ps != [] {
      FilterNarrow(ps[1..], loose, strict);
    }
  }

  /** When every amount is non-negative, so is the total. */
  lemma {:induction false} TotalAmountNonNegative(ps: seq<Payment>)
    requires forall p :: p in ps && p.amount.Some? ==> p.amount.value >= 0
    ensures TotalAmount(ps) >= 0
  {
    if ps != [] {
      assert forall p :: p in ps[1..] ==> p in ps;
      TotalAmountNonNegative(ps[1..]);
    }
  }

  /** Two tables that agree row by row on which rows a filter keeps, and on the amounts
      of the kept rows, have the same total over that filter. */
  lemma {:induction false} FilterTotalAgrees(ps: seq<Payment>, qs: seq<Payment>, keep: Payment -> bool)
    requires |ps| == |qs|
    requires forall i :: 0 <= i < |ps| ==> keep(ps[i]) == keep(qs[i])
    requires forall i :: 0 <= i < |ps| && keep(ps[i]) ==> ps[i].amount == qs[i].amount
    ensures TotalAmount(Filter(ps, keep)) == TotalAmount(Filter(qs, keep))
  {
    if ps != [] {
      assert forall i :: 0 <= i < |ps| - 1 ==> ps[1..][i] == ps[i + 1] && qs[1..][i] == qs[i + 1];
      FilterTotalAgrees(ps[1..], qs[1..], keep);
      var pRest, qRest := Filter(ps[1..], keep), Filter(qs[1..], keep);
      if keep(ps[0]) {
        assert ([ps[0]] + pRest)[1..] == pRest;
        assert ([qs[0]] + qRest)[1..] == qRest;
      }
    }
  }

  /** Two tables that agree row by row on unit, type and amount have the same
      per-unit, per-type total: status, date and description play no part in it. */
  lemma TotalIgnoresOtherFields(ps: seq<Payment>, qs: seq<Payment>, unitId: UnitId, paymentType: PaymentType)
    requires |ps| == |qs|
    requires forall i :: 0 <= i < |ps| ==>
      ps[i].unit == qs[i].unit && ps[i].paymentType == qs[i].paymentType && ps[i].amount == qs[i].amount
    ensures TotalAmount(FindByPropertyUnitIdAndPaymentType(ps, unitId, paymentType))
         == TotalAmount(FindByPropertyUnitIdAndPaymentType(qs, unitId, paymentType))
  {
    FilterTotalAgrees(ps, qs, OfUnitAndType(unitId, paymentType));
  }

  /** A range whose end is before its start selects nothing. */
  lemma EmptyRange(ps: seq<Payment>, unitId: UnitId, startDate: Date, endDate: Date)
    requires Before(endDate, startDate)
    ensures FindByPropertyUnitIdAndPaymentDateBetween(ps, unitId, startDate, endDate) == []
  {
    forall d: Date
      ensures !(!Before(d, startDate) && !After(d, endDate))
    {
      PackedOrder(d, startDate);
      PackedOrder(endDate, d);
      PackedOrder(endDate, startDate);
    }
    FilterNone(ps, OwnedWithin(unitId, startDate, endDate));
  }
}
