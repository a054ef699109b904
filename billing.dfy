/** The amount due on a rental at a given day, as the rental due summary
    computes it: whole billing intervals at a flat rate, plus outstanding
    charges, minus payments. */
module Billing {
  import opened Basics
  import opened Dates
  import opened Records
  import opened Ledger

  /** The last day billed: the end date once it has passed, otherwise today. */
  function PeriodEnd(r: Rental, today: int): (pe: int)
    ensures pe <= today
    ensures r.end.Some? ==> pe <= r.end.value
    ensures pe == today || (r.end.Some? && pe == r.end.value)
  {
    if r.end.Some? && r.end.value < today then r.end.value else today
  }

  /** `billing_interval_days or 30`. */
  function IntervalDays(r: Rental): (d: int)
    ensures d != 0
    ensures r.billingInterval.None? || r.billingInterval == Some(0) ==> d == 30
    ensures r.billingInterval.Some? && r.billingInterval.value != 0 ==> d == r.billingInterval.value
  {
    match r.billingInterval
    case None => 30
    case Some(v) => if v == 0 then 30 else v
  }

  /** The number of intervals billed: `days_active // interval + 1`.  For a
      positive interval these are exactly the intervals that have begun:
      `n - 1` whole intervals fit into the days elapsed and `n` do not, so a
      started rental bills at least one.  A negative interval mirrors the
      bounds, as Python's `//` does. */
  function Intervals(r: Rental, today: int): (n: int)
    ensures IntervalDays(r) > 0 ==>
      (n - 1) * IntervalDays(r) <= PeriodEnd(r, today) - r.start < n * IntervalDays(r)
    ensures IntervalDays(r) > 0 && PeriodEnd(r, today) >= r.start ==> n >= 1
    ensures IntervalDays(r) < 0 ==>
      n * IntervalDays(r) < PeriodEnd(r, today) - r.start <= (n - 1) * IntervalDays(r)
  {
    var d := IntervalDays(r);
    var q := FloorDiv(PeriodEnd(r, today) - r.start, d);
    assert q * d + d == (q + 1) * d;
    q + 1
  }

  /** `actual_rent`, falling back to `planned_rent`, falling back to 0; an
      actual rent of 0 still overrides the planned rent. */
  function Rate(r: Rental): (rate: int)
    ensures r.actualRent.Some? ==> rate == r.actualRent.value
    ensures r.actualRent.None? && r.plannedRent.Some? ==> rate == r.plannedRent.value
    ensures r.actualRent.None? && r.plannedRent.None? ==> rate == 0
  {
    match r.actualRent
    case Some(a) => a
    case None => r.plannedRent.GetOr(0)
  }

  /** Rent due before charges and payments: the rate for every interval
      billed.  Once the rental has started, a non-negative rate bills at
      least one interval's rent; for a positive interval, the rent beyond
      the first interval is at most the rate prorated over the days elapsed. */
  function BaseDue(r: Rental, today: int): (due: int)
    ensures Rate(r) >= 0 && IntervalDays(r) > 0 && PeriodEnd(r, today) >= r.start ==> due >= Rate(r)
    ensures Rate(r) >= 0 && IntervalDays(r) > 0 ==>
      (due - Rate(r)) * IntervalDays(r) <= Rate(r) * (PeriodEnd(r, today) - r.start)
  {
    var n := Intervals(r, today);
    assert Rate(r) * n - Rate(r) == Rate(r) * (n - 1);
    assert IntervalDays(r) > 0 && Rate(r) >= 0 ==>
      Rate(r) * (n - 1) * IntervalDays(r) <= Rate(r) * (PeriodEnd(r, today) - r.start);
    assert Rate(r) >= 0 && IntervalDays(r) > 0 && PeriodEnd(r, today) >= r.start ==> Rate(r) * (n - 1) >= 0;
    Rate(r) * n
  }

  /** The billed period never shrinks as the query day advances. */
  lemma PeriodEndMonotone(r: Rental, t1: int, t2: int)
    requires t1 <= t2
    ensures PeriodEnd(r, t1) <= PeriodEnd(r, t2)
  {
  }

  /** For a non-negative rate and a positive interval, the base rent due
      never decreases as the query day advances. */
  lemma BaseDueMonotone(r: Rental, t1: int, t2: int)
    requires t1 <= t2
    requires Rate(r) >= 0 && IntervalDays(r) > 0
    ensures BaseDue(r, t1) <= BaseDue(r, t2)
  {
    PeriodEndMonotone(r, t1, t2);
    FloorDivMonotone(PeriodEnd(r, t1) - r.start, PeriodEnd(r, t2) - r.start, IntervalDays(r));
    var n1, n2 := Intervals(r, t1), Intervals(r, t2);
    assert Rate(r) * (n2 - n1) >= 0;
  }

  /** Billing stops at the end date: any two query days after it give the
      same base rent. */
  lemma BaseDueFrozenAfterEnd(r: Rental, t1: int, t2: int)
    requires r.end.Some? && r.end.value < t1 && r.end.value < t2
    ensures BaseDue(r, t1) == BaseDue(r, t2)
  {
  }

  /** An open rental from day 0 at 3000 per 30 days, asked on day 45, bills
      two intervals: 6000. */
  lemma BaseDueExample(r: Rental)
    requires r.start == 0 && r.end.None? && r.billingInterval == Some(30)
    requires r.actualRent == Some(3000)
    ensures Intervals(r, 45) == 2 && BaseDue(r, 45) == 6000
  {
  }

  /** Before the start date nothing stops the count from going below one:
      an open 30-day rental starting 40 days after the query day bills -1
      intervals, a negative base rent. */
  lemma IntervalsBeforeStart(r: Rental, today: int)
    requires r.start == today + 40 && r.end.None? && r.billingInterval == Some(30)
    requires r.actualRent == Some(3000)
    ensures Intervals(r, today) == -1 && BaseDue(r, today) == -3000
  {
    assert PeriodEnd(r, today) - r.start == -40;
  }

  /** The payments recorded against the rental with id `rentalId`: nothing
      when none is on that rental, and never negative when no amount is. */
  function PaymentsTotal(ps: seq<Payment>, rentalId: int): (total: int)
    ensures (forall i :: 0 <= i < |ps| ==> ps[i].rentalId != rentalId) ==> total == 0
    ensures (forall i :: 0 <= i < |ps| ==> ps[i].amount >= 0) ==> total >= 0
  {
    if ps == [] then 0
    else (if ps[0].rentalId == rentalId then ps[0].amount else 0) + PaymentsTotal(ps[1..], rentalId)
  }

  /** A new payment on the rental adds exactly its amount to the rental's
      payments; a payment on another rental adds nothing. */
  lemma {:induction false} PaymentsTotalAppend(ps: seq<Payment>, p: Payment, rentalId: int)
    ensures PaymentsTotal(ps + [p], rentalId)
            == PaymentsTotal(ps, rentalId) + (if p.rentalId == rentalId then p.amount else 0)
  {
    if ps == [] {
      assert [] + [p] == [p];
    } else {
      assert (ps + [p])[1..] == ps[1..] + [p];
      PaymentsTotalAppend(ps[1..], p, rentalId);
    }
  }

  /** `due_amount = base_due + charges_due - total_payments`.  The charges
      the summary adds are the total the settlement page shows, and with
      nothing paid and nothing outstanding it is the base rent. */
  function DueAmount(r: Rental, fines: seq<Charge>, damages: seq<Charge>, salik: seq<Charge>,
                     payments: seq<Payment>, today: int): (due: int)
    ensures due == BaseDue(r, today) + SettlementPreview(r, fines, damages, salik).totalCharges
                   - PaymentsTotal(payments, r.id)
    ensures ((forall i :: 0 <= i < |payments| ==> payments[i].rentalId != r.id)
             && ChargesDue(r, fines, damages, salik) == 0) ==> due == BaseDue(r, today)
  {
    BaseDue(r, today) + ChargesDue(r, fines, damages, salik) - PaymentsTotal(payments, r.id)
  }

  /** Recording a payment of `amount` on the rental lowers the amount due by
      exactly `amount`. */
  lemma PaymentLowersDue(r: Rental, fines: seq<Charge>, damages: seq<Charge>, salik: seq<Charge>,
                         payments: seq<Payment>, today: int, amount: int, date: int, location: string)
    ensures DueAmount(r, fines, damages, salik, payments + [Payment(r.id, amount, date, location)], today)
            == DueAmount(r, fines, damages, salik, payments, today) - amount
  {
    PaymentsTotalAppend(payments, Payment(r.id, amount, date, location), r.id);
  }
}
