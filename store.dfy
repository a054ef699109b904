/** The application's tables and the routes that change them.  Each table
    is a sequence field that the route methods reassign; route outcomes
    that the application reports with a flash message and a redirect are
    returned as errors. */
module Store {
  import opened Basics
  import opened Dates
  import opened Records
  import opened Occupancy
  import opened Admission
  import opened Ledger
  import opened Billing
  import opened Ordering

  /** Rental ids are primary keys. */
  predicate UniqueRentalIds(rs: seq<Rental>) {
    forall i, j :: 0 <= i < j < |rs| ==> rs[i].id != rs[j].id
  }

  /** A rental that keeps its car out of the defleet: not settled, and
      open ended or ending today or later. */
  predicate BlocksDefleet(r: Rental, today: int): (b: bool)
    ensures r.depositRefunded ==> !b
    ensures WellFormed(r.start, r.end) ==>
      (b <==> !r.depositRefunded && (ActiveOn(r, today) || today < r.start))
  {
    !r.depositRefunded && NotAfter(today, r.end)
  }

  /** Some rental of car `carId` blocks its defleet. */
  predicate DefleetBlocked(rs: seq<Rental>, carId: int, today: int) {
    exists i :: 0 <= i < |rs| && rs[i].carId == carId && BlocksDefleet(rs[i], today)
  }

  /** The loop of `defleet_car` over the car's rentals. */
  method FindDefleetBlocker(rs: seq<Rental>, carId: int, today: int) returns (blocked: bool)
    ensures blocked <==> DefleetBlocked(rs, carId, today)
  {
    var i := 0;
    while i < |rs|
      invariant 0 <= i <= |rs|
      invariant forall j :: 0 <= j < i && rs[j].carId == carId ==> !BlocksDefleet(rs[j], today)
    {
      if rs[i].carId == carId && !rs[i].depositRefunded && (rs[i].end.None? || rs[i].end.value >= today) {
        return true;
      }
      i := i + 1;
    }
    return false;
  }

  /** The car already has a defleet record. */
  predicate IsDefleeted(ds: seq<DefleetRecord>, carId: int) {
    exists i :: 0 <= i < |ds| && ds[i].carId == carId
  }

  /** Once settled, a rental never blocks the defleet of its car, whatever
      the day. */
  lemma SettledNeverBlocksDefleet(r: Rental, refundable: int, today: int, later: int)
    ensures !BlocksDefleet(Closed(r, refundable, today), later)
  {
  }

  /** A rental that has started on `today`, has not ended and is not
      settled blocks the defleet; so does an unsettled rental that starts
      in the future, while an unsettled rental that ended yesterday does
      not. */
  lemma DefleetGuardCases(r: Rental, today: int)
    requires !r.depositRefunded
    ensures ActiveOn(r, today) ==> BlocksDefleet(r, today)
    ensures r.start > today ==> (BlocksDefleet(r, today) <==> NotAfter(today, r.end))
    ensures r.end == Some(today - 1) ==> !BlocksDefleet(r, today)
  {
  }

  class Store {
    var cars: seq<Car>
    var rentals: seq<Rental>
    var payments: seq<Payment>
    var fines: seq<Charge>
    var damages: seq<Charge>
    var salik: seq<Charge>
    var bookings: seq<Booking>
    var orders: seq<CarOrder>
    var defleeted: seq<DefleetRecord>

    /** The keys the database enforces. */
    ghost predicate Valid()
      reads this
    {
      && UniqueCarIds(cars) && UniqueRentalIds(rentals) && UniqueCars(orders)
      && UniqueIds(fines) && UniqueIds(damages) && UniqueIds(salik)
    }

    constructor ()
      ensures Valid()
      ensures cars == [] && rentals == [] && payments == [] && bookings == []
      ensures fines == [] && damages == [] && salik == [] && orders == [] && defleeted == []
    {
      cars, rentals, payments, bookings := [], [], [], [];
      fines, damages, salik, orders, defleeted := [], [], [], [], [];
    }

    /** `ensure_car_order`. */
    method EnsureCarOrder()
      requires Valid()
      modifies this`orders
      ensures Valid()
      ensures orders == Normalize(cars, old(orders))
      ensures Consecutive(orders)
      ensures forall c :: c in cars ==> exists i :: 0 <= i < |orders| && orders[i].carId == c.id
    {
      var w := AppendMissing(cars, orders);
      orders := RenumberOrders(w);
      NormalizeConsecutive(cars, old(orders));
      NormalizeCoversCars(cars, old(orders));
    }

    /** `add_car`: the new car gets the next id, the order is normalised,
        and the extra entry the route would add for the new car is never
        needed because the normalisation already gave it one. */
    method AddCar(purchasePrice: int, initialInvestment: int) returns (id: int)
      requires Valid()
      modifies this`cars, this`orders
      ensures Valid()
      ensures id == FreshKey(old(cars), (c: Car) => c.id)
      ensures cars == old(cars) + [Car(id, purchasePrice, initialInvestment)]
      ensures orders == Normalize(cars, old(orders))
      ensures Consecutive(orders)
      ensures exists i :: 0 <= i < |orders| && orders[i].carId == id
    {
      id := FreshKey(cars, (c: Car) => c.id);
      cars := cars + [Car(id, purchasePrice, initialInvestment)];
      EnsureCarOrder();
      assert Car(id, purchasePrice, initialInvestment) in cars;
      var pos := PositionOf(orders, id);
      if pos.None? {
        assert false;
      }
    }

    /** `move_car_up`: normalise the order, then move the car one place
        up. */
    method MoveCarUp(carId: int)
      requires Valid()
      modifies this`orders
      ensures Valid()
      ensures orders == MovedUp(Normalize(cars, old(orders)), carId)
      ensures Consecutive(orders)
    {
      EnsureCarOrder();
      MoveUpSpec(orders, carId);
      orders := MoveUp(orders, carId);
    }

    /** `move_car_down`: normalise the order, then move the car one place
        down. */
    method MoveCarDown(carId: int)
      requires Valid()
      modifies this`orders
      ensures Valid()
      ensures orders == MovedDown(Normalize(cars, old(orders)), carId)
      ensures Consecutive(orders)
    {
      EnsureCarOrder();
      MoveDownSpec(orders, carId);
      orders := MoveDown(orders, carId);
    }

    /** `add_rental`: refused when an existing rental of the car
        intersects the new range, otherwise stored with a fresh id. */
    method AddRental(carId: int, customerId: int, start: int, end: Option<int>,
                     plannedRent: Option<int>, actualRent: Option<int>, deposit: int)
      returns (res: Result<int, Error>)
      requires Valid()
      modifies this`rentals
      ensures Valid()
      ensures res.Err? <==> !RentalAdmissible(old(rentals), carId, start, end)
      ensures res.Err? ==> rentals == old(rentals) && res.error.RentalOverlap?
      ensures res.Err? ==> exists k :: 0 <= k < |rentals| && rentals[k] == res.error.conflict
                                      && ConflictsWith(rentals[k], carId, start, end)
                                      && forall j :: 0 <= j < k ==> !ConflictsWith(rentals[j], carId, start, end)
      ensures res.Ok? ==> res.value == FreshKey(old(rentals), (r: Rental) => r.id)
      ensures res.Ok? ==> (rentals == old(rentals)
        + [NewRental(res.value, carId, customerId, start, end, plannedRent, actualRent, deposit)])
      ensures NoOverlap(old(rentals)) ==> NoOverlap(rentals)
    {
      var conflict := FindRentalConflict(rentals, carId, start, end);
      if conflict.Some? {
        return Err(RentalOverlap(rentals[conflict.value]));
      }
      var id := FreshKey(rentals, (r: Rental) => r.id);
      var r := NewRental(id, carId, customerId, start, end, plannedRent, actualRent, deposit);
      if NoOverlap(rentals) {
        AdmissionPreservesNoOverlap(rentals, r);
      }
      rentals := rentals + [r];
      res := Ok(id);
    }

    /** `edit_rental`: the form fields are written with no overlap check. */
    method EditRental(rentalId: int, carId: int, customerId: int, start: int, end: Option<int>,
                      plannedRent: Option<int>, actualRent: Option<int>, deposit: int)
      returns (err: Option<Error>)
      requires Valid()
      modifies this`rentals
      ensures Valid()
      ensures err.Some? <==> FindRental(old(rentals), rentalId).None?
      ensures err.Some? ==> err.value == NotFound && rentals == old(rentals)
      ensures err.None? ==> var k := FindRental(old(rentals), rentalId).value;
        rentals == old(rentals)[k := Edited(old(rentals)[k], carId, customerId, start, end, plannedRent, actualRent, deposit)]
    {
      var k := FindRental(rentals, rentalId);
      if k.None? {
        return Some(NotFound);
      }
      rentals := rentals[k.value := Edited(rentals[k.value], carId, customerId, start, end, plannedRent, actualRent, deposit)];
      err := None;
    }

    /** `add_booking`: refused only when the first rental of the car active
        on the start day has a fixed end; the booking's own end is not
        checked. */
    method AddBooking(carId: int, customerId: Option<int>, start: int, end: int) returns (err: Option<Error>)
      requires Valid()
      modifies this`bookings
      ensures Valid()
      ensures err.Some? <==> BookingBlocker(rentals, carId, start).Some?
      ensures err.Some? ==> err.value == BookingOverlap(BookingBlocker(rentals, carId, start).value)
                            && bookings == old(bookings)
      ensures err.None? ==> bookings == old(bookings) + [Booking(carId, customerId, start, end)]
    {
      var blocker := BookingBlocker(rentals, carId, start);
      if blocker.Some? {
        return Some(BookingOverlap(blocker.value));
      }
      bookings := bookings + [Booking(carId, customerId, start, end)];
      err := None;
    }

    /** `add_payment`: the payment is recorded and every selected charge
        that exists becomes paid via rent, whichever rental it belongs to. */
    method AddPayment(rentalId: int, amount: int, date: int, location: string,
                      fineIds: seq<int>, damageIds: seq<int>, salikIds: seq<int>)
      returns (err: Option<Error>)
      requires Valid()
      modifies this`payments, this`fines, this`damages, this`salik
      ensures Valid()
      ensures err.Some? <==> FindRental(rentals, rentalId).None?
      ensures err.Some? ==> (err.value == NotFound && payments == old(payments)
        && fines == old(fines) && damages == old(damages) && salik == old(salik))
      ensures err.None? ==> payments == old(payments) + [Payment(rentalId, amount, date, location)]
      ensures err.None? ==> PaymentsTotal(payments, rentalId) == PaymentsTotal(old(payments), rentalId) + amount
      ensures err.None? ==> (fines == MarkSelected(old(fines), fineIds)
        && damages == MarkSelected(old(damages), damageIds) && salik == MarkSelected(old(salik), salikIds))
      ensures err.None? ==> forall i :: 0 <= i < |fines| ==>
        fines[i] == if old(fines)[i].id in fineIds then SettledBy(old(fines)[i], Rent) else old(fines)[i]
      ensures err.None? ==> forall i :: 0 <= i < |damages| ==>
        damages[i] == if old(damages)[i].id in damageIds then SettledBy(old(damages)[i], Rent) else old(damages)[i]
      ensures err.None? ==> forall i :: 0 <= i < |salik| ==>
        salik[i] == if old(salik)[i].id in salikIds then SettledBy(old(salik)[i], Rent) else old(salik)[i]
    {
      var k := FindRental(rentals, rentalId);
      if k.None? {
        return Some(NotFound);
      }
      PaymentsTotalAppend(payments, Payment(rentalId, amount, date, location), rentalId);
      payments := payments + [Payment(rentalId, amount, date, location)];
      fines := MarkViaRent(fines, fineIds);
      damages := MarkViaRent(damages, damageIds);
      salik := MarkViaRent(salik, salikIds);
      MarkSelectedAt(old(fines), fineIds);
      MarkSelectedAt(old(damages), damageIds);
      MarkSelectedAt(old(salik), salikIds);
      err := None;
    }

    /** `settle_rental` confirmed on `today`: the preview is computed from
        the charges as they were, every outstanding charge of the rental is
        paid via the deposit and the rental is closed.  A rental already
        settled is settled again. */
    method SettleRental(rentalId: int, today: int) returns (res: Result<Preview, Error>)
      requires Valid()
      modifies this`rentals, this`fines, this`damages, this`salik
      ensures Valid()
      ensures res.Err? <==> FindRental(old(rentals), rentalId).None?
      ensures res.Err? ==> (res.error == NotFound && rentals == old(rentals)
        && fines == old(fines) && damages == old(damages) && salik == old(salik))
      ensures res.Ok? ==>
        var k := FindRental(old(rentals), rentalId).value;
        var r := old(rentals)[k];
        && res.value == SettlementPreview(r, old(fines), old(damages), old(salik))
        && fines == SettleOutstanding(old(fines), r, CarAndCustomer)
        && damages == SettleOutstanding(old(damages), r, CarAndCustomer)
        && salik == SettleOutstanding(old(salik), r, RentalOnly)
        && rentals == old(rentals)[k := Closed(r, res.value.refundable, today)]
        && ChargesDue(r, fines, damages, salik) == 0
    {
      var k := FindRental(rentals, rentalId);
      if k.None? {
        return Err(NotFound);
      }
      var r := rentals[k.value];
      var preview := SettlementPreview(r, fines, damages, salik);
      fines := SettleList(fines, r, CarAndCustomer);
      damages := SettleList(damages, r, CarAndCustomer);
      salik := SettleList(salik, r, RentalOnly);
      SettleClearsChargesDue(r, old(fines), old(damages), old(salik));
      rentals := rentals[k.value := Closed(r, preview.refundable, today)];
      res := Ok(preview);
    }

    /** `defleet_car` on `today`: refused for an unknown car or while a
        rental blocks it; otherwise the car gets a defleet record unless it
        already has one. */
    method DefleetCar(carId: int, today: int) returns (err: Option<Error>)
      requires Valid()
      modifies this`defleeted
      ensures Valid()
      ensures (forall i :: 0 <= i < |cars| ==> cars[i].id != carId) ==>
        err == Some(NotFound) && defleeted == old(defleeted)
      ensures (exists i :: 0 <= i < |cars| && cars[i].id == carId) && DefleetBlocked(rentals, carId, today) ==>
        err == Some(CarStillRented) && defleeted == old(defleeted)
      ensures (exists i :: 0 <= i < |cars| && cars[i].id == carId) && !DefleetBlocked(rentals, carId, today) ==>
        err.None? && defleeted == (if IsDefleeted(old(defleeted), carId) then old(defleeted)
                                   else old(defleeted) + [DefleetRecord(carId, today)])
    {
      var found := FindFirst(cars, (c: Car) => c.id == carId);
      if found.None? {
        return Some(NotFound);
      }
      var blocked := FindDefleetBlocker(rentals, carId, today);
      if blocked {
        return Some(CarStillRented);
      }
      var record := FindFirst(defleeted, (d: DefleetRecord) => d.carId == carId);
      if record.None? {
        defleeted := defleeted + [DefleetRecord(carId, today)];
      }
      err := None;
    }
  }
}
