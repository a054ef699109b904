/** What the application checks before it stores a rental or a booking:
    the overlap test of `add_rental`, the (weaker) conflict test of
    `add_booking`, and the absence of any test in `edit_rental`. */
module Admission {
  import opened Basics
  import opened Dates
  import opened Records
  import opened Occupancy

  /** An existing rental blocks a new rental `[start, end]` on `carId`: same
      car and intersecting ranges, whether or not it has been settled. */
  predicate ConflictsWith(r: Rental, carId: int, start: int, end: Option<int>) {
    r.carId == carId && Overlaps(r.start, r.end, start, end)
  }

  /** No existing rental blocks the new one. */
  predicate RentalAdmissible(rs: seq<Rental>, carId: int, start: int, end: Option<int>) {
    forall i :: 0 <= i < |rs| ==> !ConflictsWith(rs[i], carId, start, end)
  }

  /** The overlap loop of `add_rental`: the first rental of the car whose
      range intersects `[start, end]`, if any. */
  method FindRentalConflict(rs: seq<Rental>, carId: int, start: int, end: Option<int>)
    returns (conflict: Option<nat>)
    ensures conflict.None? <==> RentalAdmissible(rs, carId, start, end)
    ensures conflict.Some? ==> conflict.value < |rs| && ConflictsWith(rs[conflict.value], carId, start, end)
    ensures conflict.Some? ==> forall j :: 0 <= j < conflict.value ==> !ConflictsWith(rs[j], carId, start, end)
  {
    conflict := None;
    var i := 0;
    while i < |rs|
      invariant 0 <= i <= |rs|
      invariant forall j :: 0 <= j < i ==> !ConflictsWith(rs[j], carId, start, end)
    {
      var r := rs[i];
      if r.carId == carId {
        if NotAfter(r.start, end) && NotAfter(start, r.end) {
          conflict := Some(i);
          return;
        }
      }
      i := i + 1;
    }
  }

  /** `[1, 10]` blocks `[5, 15]` on the same car but not `[11, 20]`, and
      ranges on another car never block. */
  lemma RentalAdmissionExamples(r: Rental)
    requires r.carId == 7 && r.start == 1 && r.end == Some(10)
    ensures !RentalAdmissible([r], 7, 5, Some(15))
    ensures RentalAdmissible([r], 7, 11, Some(20))
    ensures RentalAdmissible([r], 8, 5, Some(15))
    ensures !RentalAdmissible([r], 7, 10, None)
  {
    assert ConflictsWith([r][0], 7, 5, Some(15));
    assert ConflictsWith([r][0], 7, 10, None);
  }

  /** The store-wide property the overlap check aims at: no two rentals of
      the same car have intersecting ranges. */
  predicate NoOverlap(rs: seq<Rental>) {
    forall i, j :: 0 <= i < j < |rs| && rs[i].carId == rs[j].carId
      ==> !Overlaps(rs[i].start, rs[i].end, rs[j].start, rs[j].end)
  }

  /** Admitting only rentals that pass the check keeps the store free of
      overlaps. */
  lemma AdmissionPreservesNoOverlap(rs: seq<Rental>, n: Rental)
    requires NoOverlap(rs)
    requires RentalAdmissible(rs, n.carId, n.start, n.end)
    ensures NoOverlap(rs + [n])
  {
    var rs' := rs + [n];
    forall i, j | 0 <= i < j < |rs'| && rs'[i].carId == rs'[j].carId
      ensures !Overlaps(rs'[i].start, rs'[i].end, rs'[j].start, rs'[j].end)
    {
      if j == |rs| {
        assert !ConflictsWith(rs[i], n.carId, n.start, n.end);
        OverlapsSymmetric(rs[i].start, rs[i].end, n.start, n.end);
      } else {
        assert rs'[i] == rs[i] && rs'[j] == rs[j];
      }
    }
  }

  /** The record `add_rental` stores once admitted: 30-day billing, the
      first bill due 30 days after the start, not yet settled. */
  function NewRental(id: int, carId: int, customerId: int, start: int, end: Option<int>,
                     plannedRent: Option<int>, actualRent: Option<int>, deposit: int): (r: Rental)
    ensures r.id == id && r.carId == carId && r.customerId == customerId
    ensures r.start == start && r.end == end
    ensures r.plannedRent == plannedRent && r.actualRent == actualRent && r.deposit == deposit
    ensures r.billingInterval == Some(30) && r.nextBilling == Some(start + 30)
    ensures r.contract == (if end.Some? then Fixed else Open)
    ensures !r.depositRefunded && r.refundedAmount.None? && r.refundDate.None?
  {
    Rental(id, carId, customerId, start, end, if end.Some? then Fixed else Open,
           plannedRent, actualRent, deposit, false, None, None, Some(30), Some(start + 30))
  }

  /** What `edit_rental` writes: every form field, with no overlap check.
      The id, the settlement state and the billing schedule are kept, so an
      edited start date does not move the next billing date. */
  function Edited(r: Rental, carId: int, customerId: int, start: int, end: Option<int>,
                  plannedRent: Option<int>, actualRent: Option<int>, deposit: int): (r': Rental)
    ensures r'.carId == carId && r'.customerId == customerId && r'.start == start && r'.end == end
    ensures r'.plannedRent == plannedRent && r'.actualRent == actualRent && r'.deposit == deposit
    ensures r'.contract == (if end.Some? then Fixed else Open)
    ensures r'.id == r.id && r'.depositRefunded == r.depositRefunded
    ensures r'.refundedAmount == r.refundedAmount && r'.refundDate == r.refundDate
    ensures r'.billingInterval == r.billingInterval && r'.nextBilling == r.nextBilling
  {
    r.(carId := carId, customerId := customerId, start := start, end := end,
       contract := if end.Some? then Fixed else Open,
       plannedRent := plannedRent, actualRent := actualRent, deposit := deposit)
  }

  /** Because `edit_rental` skips the overlap check, an edit can break the
      no-overlap property that `add_rental` maintains: moving the start of
      `[11, 20]` back to 5 makes it intersect `[1, 10]`. */
  lemma EditCanBreakNoOverlap(a: Rental, b: Rental)
    requires a.carId == b.carId && a.start == 1 && a.end == Some(10)
    requires b.start == 11 && b.end == Some(20)
    ensures NoOverlap([a, b])
    ensures !NoOverlap([a, Edited(b, b.carId, b.customerId, 5, b.end, b.plannedRent, b.actualRent, b.deposit)])
  {
    var b' := Edited(b, b.carId, b.customerId, 5, b.end, b.plannedRent, b.actualRent, b.deposit);
    assert [a, b'][0] == a && [a, b'][1] == b';
  }

  /** The conflict loop of `add_booking`: it looks only at the first rental
      of the car that covers the booking's start day, and refuses the
      booking only when that rental has a fixed end.  The result is that
      rental's end date. */
  function BookingBlocker(rentals: seq<Rental>, carId: int, start: int): (blocker: Option<int>)
    ensures blocker.Some? <==>
      exists k :: IsFirstActive(RentalsOf(rentals, carId), k, start) && RentalsOf(rentals, carId)[k].end.Some?
    ensures blocker.Some? ==>
      exists k :: IsFirstActive(RentalsOf(rentals, carId), k, start) && RentalsOf(rentals, carId)[k].end == blocker
    ensures blocker.Some? ==> blocker.value >= start
  {
    var rs := RentalsOf(rentals, carId);
    match FirstActive(rs, start)
    case None => None
    case Some(k) =>
      assert IsFirstActive(rs, k, start);
      if rs[k].end.Some? && rs[k].end.value >= start then rs[k].end else None
  }

  /** A booking is refused only when the car is rented on the booking's
      first day. */
  lemma BookingRefusedOnlyWhenRentedOnStart(rentals: seq<Rental>, carId: int, start: int)
    requires BookingBlocker(rentals, carId, start).Some?
    ensures IsRentedToday(RentalsOf(rentals, carId), start)
  {
    var k :| IsFirstActive(RentalsOf(rentals, carId), k, start)
             && RentalsOf(rentals, carId)[k].end.Some?;
    assert ActiveOn(RentalsOf(rentals, carId)[k], start);
  }

  /** Two gaps in the booking check: an open-ended rental never blocks a
      booking, and a rental that starts after the booking's first day does
      not block it even when the ranges intersect. */
  lemma BookingCheckGaps(r: Rental)
    requires r.carId == 3
    ensures r.start == 1 && r.end.None? ==> BookingBlocker([r], 3, 5).None?
    ensures r.start == 10 && r.end == Some(20) ==> BookingBlocker([r], 3, 5).None?
    ensures r.start == 1 && r.end == Some(20) ==> BookingBlocker([r], 3, 5) == Some(20)
  {
    assert RentalsOf([r], 3) == [r];
  }
}
