/** Whether a car is rented, booked or available on a given day, as the
    availability page and the dashboard decide it. */
module Occupancy {
  import opened Basics
  import opened Dates
  import opened Records

  /** The test of `is_rented_today`: the rental has started and has not
      ended (or is open ended). */
  predicate ActiveOn(r: Rental, today: int) {
    NotAfter(today, r.end) && r.start <= today
  }

  /** The test of `is_booked_today`. */
  predicate BookedOn(b: Booking, today: int) {
    InRange(today, b.start, b.end)
  }

  /** `car.bookings`: the bookings of one car, in store order. */
  function BookingsOf(bs: seq<Booking>, carId: int): (out: seq<Booking>)
    ensures forall b :: b in out <==> b in bs && b.carId == carId
  {
    if bs == [] then []
    else (if bs[0].carId == carId then [bs[0]] else []) + BookingsOf(bs[1..], carId)
  }

  /** The selection keeps store order. */
  lemma {:induction false} BookingsOfConcat(a: seq<Booking>, b: seq<Booking>, carId: int)
    ensures BookingsOf(a + b, carId) == BookingsOf(a, carId) + BookingsOf(b, carId)
  {
    if a != [] {
      assert (a + b)[1..] == a[1..] + b;
      BookingsOfConcat(a[1..], b, carId);
    } else {
      assert a + b == b;
    }
  }

  /** The first of a car's rentals that is active today (list order). */
  function FirstActive(rs: seq<Rental>, today: int): (k: Option<nat>)
    ensures k.None? <==> forall i :: 0 <= i < |rs| ==> !ActiveOn(rs[i], today)
    ensures k.Some? ==> k.value < |rs| && ActiveOn(rs[k.value], today)
    ensures k.Some? ==> forall j :: 0 <= j < k.value ==> !ActiveOn(rs[j], today)
  {
    FindFirst(rs, (r: Rental) => ActiveOn(r, today))
  }

  /** The first of a car's bookings whose range contains today. */
  function FirstBooked(bs: seq<Booking>, today: int): (k: Option<nat>)
    ensures k.None? <==> forall i :: 0 <= i < |bs| ==> !BookedOn(bs[i], today)
    ensures k.Some? ==> k.value < |bs| && BookedOn(bs[k.value], today)
    ensures k.Some? ==> forall j :: 0 <= j < k.value ==> !BookedOn(bs[j], today)
  {
    FindFirst(bs, (b: Booking) => BookedOn(b, today))
  }

  /** `is_rented_today(car, today)` over the car's rentals. */
  predicate IsRentedToday(rs: seq<Rental>, today: int)
    ensures IsRentedToday(rs, today) <==> exists i :: 0 <= i < |rs| && ActiveOn(rs[i], today)
  {
    FirstActive(rs, today).Some?
  }

  /** `is_booked_today(car, today)` over the car's bookings. */
  predicate IsBookedToday(bs: seq<Booking>, today: int)
    ensures IsBookedToday(bs, today) <==> exists i :: 0 <= i < |bs| && BookedOn(bs[i], today)
  {
    FirstBooked(bs, today).Some?
  }

  /** The information shown beside a rented car. */
  datatype RentedInfo = AvailableFrom(day: int) | OpenEnded

  /** One row of the availability page. */
  datatype Status = Rented(info: RentedInfo) | Booked(until: int) | Available

  /** The day after a fixed end, or "open ended". */
  function InfoFor(r: Rental): RentedInfo {
    match r.end
    case Some(e) => AvailableFrom(e + 1)
    case None => OpenEnded
  }

  /** `k` is the rental the availability page reports for a rented car. */
  predicate IsFirstActive(rs: seq<Rental>, k: int, today: int) {
    0 <= k < |rs| && ActiveOn(rs[k], today) && forall j :: 0 <= j < k ==> !ActiveOn(rs[j], today)
  }

  /** `k` is the booking the availability page reports for a booked car. */
  predicate IsFirstBooked(bs: seq<Booking>, k: int, today: int) {
    0 <= k < |bs| && BookedOn(bs[k], today) && forall j :: 0 <= j < k ==> !BookedOn(bs[j], today)
  }

  /** The status selection of the availability page for one car: Rented
      wins over Booked, Booked over Available, and the first matching
      rental or booking in list order supplies the information. */
  function CarStatus(rs: seq<Rental>, bs: seq<Booking>, today: int): (st: Status)
    ensures st.Rented? <==> IsRentedToday(rs, today)
    ensures st.Booked? <==> !IsRentedToday(rs, today) && IsBookedToday(bs, today)
    ensures st.Available? <==> !IsRentedToday(rs, today) && !IsBookedToday(bs, today)
    ensures st.Rented? ==> exists k :: IsFirstActive(rs, k, today) && st.info == InfoFor(rs[k])
    ensures st.Booked? ==> exists k :: IsFirstBooked(bs, k, today) && st.until == bs[k].end
  {
    match FirstActive(rs, today)
    case Some(k) =>
      assert IsFirstActive(rs, k, today);
      Rented(InfoFor(rs[k]))
    case None =>
      match FirstBooked(bs, today)
      case Some(k) =>
        assert IsFirstBooked(bs, k, today);
        Booked(bs[k].end)
      case None => Available
  }

  /** A car reported with "available from d" is rented through `d - 1`:
      today is not later than the end of the reported rental. */
  lemma AvailableFromIsAfterToday(rs: seq<Rental>, bs: seq<Booking>, today: int)
    requires CarStatus(rs, bs, today).Rented?
    requires CarStatus(rs, bs, today).info.AvailableFrom?
    ensures CarStatus(rs, bs, today).info.day > today
  {
    var k :| IsFirstActive(rs, k, today) && CarStatus(rs, bs, today).info == InfoFor(rs[k]);
    assert rs[k].end.Some?;
  }

  /** A rental of the car is active today. */
  predicate RentedInStore(rentals: seq<Rental>, carId: int, today: int) {
    exists i :: 0 <= i < |rentals| && rentals[i].carId == carId && ActiveOn(rentals[i], today)
  }

  /** A booking of the car covers today. */
  predicate BookedInStore(bookings: seq<Booking>, carId: int, today: int) {
    exists i :: 0 <= i < |bookings| && bookings[i].carId == carId && BookedOn(bookings[i], today)
  }

  /** Looking at the car's own rentals decides the same as looking through
      the whole store. */
  lemma RentedOfCarMatchesStore(rentals: seq<Rental>, carId: int, today: int)
    ensures IsRentedToday(RentalsOf(rentals, carId), today) <==> RentedInStore(rentals, carId, today)
  {
    var rs := RentalsOf(rentals, carId);
    if IsRentedToday(rs, today) {
      var i :| 0 <= i < |rs| && ActiveOn(rs[i], today);
      assert rs[i] in rs;
      var j :| 0 <= j < |rentals| && rentals[j] == rs[i];
      assert rentals[j].carId == carId && ActiveOn(rentals[j], today);
    }
    if RentedInStore(rentals, carId, today) {
      var j :| 0 <= j < |rentals| && rentals[j].carId == carId && ActiveOn(rentals[j], today);
      assert rentals[j] in rs;
      var i :| 0 <= i < |rs| && rs[i] == rentals[j];
      assert ActiveOn(rs[i], today);
    }
  }

  /** The same for the car's own bookings. */
  lemma BookedOfCarMatchesStore(bookings: seq<Booking>, carId: int, today: int)
    ensures IsBookedToday(BookingsOf(bookings, carId), today) <==> BookedInStore(bookings, carId, today)
  {
    var bs := BookingsOf(bookings, carId);
    if IsBookedToday(bs, today) {
      var i :| 0 <= i < |bs| && BookedOn(bs[i], today);
      assert bs[i] in bs;
      var j :| 0 <= j < |bookings| && bookings[j] == bs[i];
      assert bookings[j].carId == carId && BookedOn(bookings[j], today);
    }
    if BookedInStore(bookings, carId, today) {
      var j :| 0 <= j < |bookings| && bookings[j].carId == carId && BookedOn(bookings[j], today);
      assert bookings[j] in bs;
      var i :| 0 <= i < |bs| && bs[i] == bookings[j];
      assert BookedOn(bs[i], today);
    }
  }

  /** The status a car has on the availability page, stated over the whole
      store: Rented when one of its rentals is active today, otherwise
      Booked when one of its bookings covers today, otherwise Available. */
  function StatusOfCar(c: Car, rentals: seq<Rental>, bookings: seq<Booking>, today: int): (st: Status)
    ensures st.Rented? <==> RentedInStore(rentals, c.id, today)
    ensures st.Booked? <==> !RentedInStore(rentals, c.id, today) && BookedInStore(bookings, c.id, today)
    ensures st.Available? <==> !RentedInStore(rentals, c.id, today) && !BookedInStore(bookings, c.id, today)
  {
    RentedOfCarMatchesStore(rentals, c.id, today);
    BookedOfCarMatchesStore(bookings, c.id, today);
    CarStatus(RentalsOf(rentals, c.id), BookingsOf(bookings, c.id), today)
  }

  /** The cars the availability page lists: those without a defleet
      record. */
  function ShownCars(cars: seq<Car>, defleeted: seq<DefleetRecord>): (out: seq<Car>)
    ensures |out| <= |cars|
    ensures forall c :: c in out <==> c in cars && forall d :: d in defleeted ==> d.carId != c.id
  {
    if cars == [] then []
    else
      (if forall d :: d in defleeted ==> d.carId != cars[0].id then [cars[0]] else [])
      + ShownCars(cars[1..], defleeted)
  }

  /** The dashboard's `rented` count. */
  function RentedCount(cars: seq<Car>, rentals: seq<Rental>, today: int): (n: nat)
    ensures n <= |cars|
  {
    if cars == [] then 0
    else (if IsRentedToday(RentalsOf(rentals, cars[0].id), today) then 1 else 0)
         + RentedCount(cars[1..], rentals, today)
  }

  /** The dashboard's `booked` count: booked and not rented. */
  function BookedCount(cars: seq<Car>, rentals: seq<Rental>, bookings: seq<Booking>, today: int): (n: nat)
    ensures n <= |cars|
  {
    if cars == [] then 0
    else (if !IsRentedToday(RentalsOf(rentals, cars[0].id), today)
             && IsBookedToday(BookingsOf(bookings, cars[0].id), today) then 1 else 0)
         + BookedCount(cars[1..], rentals, bookings, today)
  }

  /** The number of cars whose availability status satisfies `which`. */
  function StatusCount(cars: seq<Car>, rentals: seq<Rental>, bookings: seq<Booking>, today: int,
                       which: Status -> bool): nat {
    if cars == [] then 0
    else (if which(StatusOfCar(cars[0], rentals, bookings, today)) then 1 else 0)
         + StatusCount(cars[1..], rentals, bookings, today, which)
  }

  /** The dashboard's `rented` count is the number of cars the availability
      page shows as Rented. */
  lemma {:induction false} DashboardRentedMatchesStatus(cars: seq<Car>, rentals: seq<Rental>, bookings: seq<Booking>, today: int)
    ensures RentedCount(cars, rentals, today) == StatusCount(cars, rentals, bookings, today, (s: Status) => s.Rented?)
  {
    if cars != [] {
      RentedOfCarMatchesStore(rentals, cars[0].id, today);
      DashboardRentedMatchesStatus(cars[1..], rentals, bookings, today);
    }
  }

  /** The dashboard's `booked` count is the number of cars the availability
      page shows as Booked. */
  lemma {:induction false} DashboardBookedMatchesStatus(cars: seq<Car>, rentals: seq<Rental>, bookings: seq<Booking>, today: int)
    ensures BookedCount(cars, rentals, bookings, today) == StatusCount(cars, rentals, bookings, today, (s: Status) => s.Booked?)
  {
    if cars != [] {
      RentedOfCarMatchesStore(rentals, cars[0].id, today);
      BookedOfCarMatchesStore(bookings, cars[0].id, today);
      DashboardBookedMatchesStatus(cars[1..], rentals, bookings, today);
    }
  }

  /** The dashboard's `available = total - rented - booked` is never
      negative and is exactly the number of cars whose status is Available. */
  lemma {:induction false} DashboardAvailableMatchesStatus(cars: seq<Car>, rentals: seq<Rental>, bookings: seq<Booking>, today: int)
    ensures |cars| - RentedCount(cars, rentals, today) - BookedCount(cars, rentals, bookings, today)
            == StatusCount(cars, rentals, bookings, today, (s: Status) => s.Available?)
  {
    if cars != [] {
      DashboardAvailableMatchesStatus(cars[1..], rentals, bookings, today);
    }
  }

  /** A car appears on the availability page as Available exactly when it
      is in the fleet, has no defleet record, and no rental or booking of
      it covers the day. */
  lemma ListedAsAvailable(c: Car, cars: seq<Car>, defleeted: seq<DefleetRecord>,
                          rentals: seq<Rental>, bookings: seq<Booking>, today: int)
    ensures (c in ShownCars(cars, defleeted) && StatusOfCar(c, rentals, bookings, today).Available?)
            <==> (c in cars && (forall d :: d in defleeted ==> d.carId != c.id)
                  && !RentedInStore(rentals, c.id, today) && !BookedInStore(bookings, c.id, today))
  {
  }
}
