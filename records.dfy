/** The stored entities of the rental system, as plain values.  Dates are
    day numbers; money is an integer amount.  A nullable numeric column that
    the application only ever reads as `value or 0` is an `int` in which an
    absent value is 0; a column whose absence is told apart from 0 is an
    `Option`. */
module Records {
  import opened Basics

  /** A vehicle of the fleet, with the acquisition costs the reports use. */
  datatype Car = Car(id: int, purchasePrice: int, initialInvestment: int)

  /** `contract_type`: 'open' without an end date, 'fixed' with one. */
  datatype Contract = Open | Fixed

  /** A rental agreement: one car, one customer, `[start, end or open]`. */
  datatype Rental = Rental(
    id: int,
    carId: int,
    customerId: int,
    start: int,
    end: Option<int>,
    contract: Contract,
    plannedRent: Option<int>,
    actualRent: Option<int>,
    deposit: int,
    depositRefunded: bool,
    refundedAmount: Option<int>,
    refundDate: Option<int>,
    billingInterval: Option<int>,
    nextBilling: Option<int>)

  /** A payment recorded against one rental. */
  datatype Payment = Payment(rentalId: int, amount: int, date: int, location: string)

  /** `settled_via`: how a charge was paid.  Operators may type any label on
      the charge forms; the application itself writes only 'rent' and
      'deposit'.  A stored label is read through `ViaOf`, so `Other` never
      holds the text "rent" or "deposit". */
  datatype Via = Unset | Rent | Deposit | Other(text: string)

  /** The value of a `settled_via` column holding `stored` (absent when null). */
  function ViaOf(stored: Option<string>): (v: Via)
    ensures v == Unset <==> stored.None?
    ensures v == Rent <==> stored == Some("rent")
    ensures v == Deposit <==> stored == Some("deposit")
    ensures v.Other? ==> stored == Some(v.text) && v.text != "rent" && v.text != "deposit"
  {
    match stored
    case None => Unset
    case Some(t) => if t == "rent" then Rent else if t == "deposit" then Deposit else Other(t)
  }

  /** A fine, a damage or a Salik (toll) entry: the three have the same
      shape.  `ownerId` is the customer of a fine or a damage and the rental
      of a Salik entry. */
  datatype Charge = Charge(id: int, carId: int, ownerId: int, amount: int, paid: bool, via: Via)

  /** A reservation of a car over an inclusive date range. */
  datatype Booking = Booking(carId: int, customerId: Option<int>, start: int, end: int)

  /** A maintenance or running cost of a car. */
  datatype Expense = Expense(carId: int, cost: int)

  /** A car's position in the manually ordered fleet list. */
  datatype CarOrder = CarOrder(carId: int, index: int)

  /** The marker row that takes a car out of the active fleet. */
  datatype DefleetRecord = DefleetRecord(carId: int, date: int)

  /** Why an operation was refused. */
  datatype Error =
    | NotFound
    | RentalOverlap(conflict: Rental)
    | BookingOverlap(rentalEnd: int)
    | CarStillRented

  /** `car.rentals`: the rentals of one car, in store order. */
  function RentalsOf(rs: seq<Rental>, carId: int): (out: seq<Rental>)
    ensures |out| <= |rs|
    ensures forall r :: r in out <==> r in rs && r.carId == carId
  {
    if rs == [] then []
    else (if rs[0].carId == carId then [rs[0]] else []) + RentalsOf(rs[1..], carId)
  }

  /** The selection keeps store order: the rentals of a concatenation are
      those of the first part followed by those of the second. */
  lemma {:induction false} RentalsOfConcat(a: seq<Rental>, b: seq<Rental>, carId: int)
    ensures RentalsOf(a + b, carId) == RentalsOf(a, carId) + RentalsOf(b, carId)
  {
    if a != [] {
      assert (a + b)[1..] == a[1..] + b;
      RentalsOfConcat(a[1..], b, carId);
    } else {
      assert a + b == b;
    }
  }

  /** `Rental.query.get(id)`: the position of the rental with that id. */
  function FindRental(rs: seq<Rental>, id: int): (k: Option<nat>)
    ensures k.None? <==> forall i :: 0 <= i < |rs| ==> rs[i].id != id
    ensures k.Some? ==> k.value < |rs| && rs[k.value].id == id
  {
    FindFirst(rs, (r: Rental) => r.id == id)
  }
}
