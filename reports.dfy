/** The per-car report: days rented against the period since the car's
    first rental, revenue from payments, costs, profit and the share of the
    investment recovered. */
module Reports {
  import opened Basics
  import opened Dates
  import opened Records
  import opened Ledger
  import opened Ordering
  import opened Admission

  // ---------------------------------------------------------------------
  // Utilisation

  /** The earliest start among the rentals of car `carId`, if it has any. */
  function FirstStart(rs: seq<Rental>, carId: int): (m: Option<int>)
    ensures m.None? <==> forall i :: 0 <= i < |rs| ==> rs[i].carId != carId
    ensures m.Some? ==> forall i :: 0 <= i < |rs| && rs[i].carId == carId ==> m.value <= rs[i].start
    ensures m.Some? ==> exists i :: 0 <= i < |rs| && rs[i].carId == carId && rs[i].start == m.value
  {
    if rs == [] then None
    else
      var rest := FirstStart(rs[1..], carId);
      assert forall i :: 1 <= i < |rs| ==> rs[i] == rs[1..][i - 1];
      if rs[0].carId != carId then
        (if rest.Some? then
           var i :| 0 <= i < |rs| - 1 && rs[1..][i].carId == carId && rs[1..][i].start == rest.value;
           assert rs[i + 1] == rs[1..][i];
           rest
         else rest)
      else if rest.Some? && rest.value < rs[0].start then
        var i :| 0 <= i < |rs| - 1 && rs[1..][i].carId == carId && rs[1..][i].start == rest.value;
        assert rs[i + 1] == rs[1..][i];
        rest
      else Some(rs[0].start)
  }

  /** `earliest`: the first start, or today when the car was never rented. */
  function Earliest(rs: seq<Rental>, carId: int, today: int): int {
    FirstStart(rs, carId).GetOr(today)
  }

  /** The last day a rental counts for: its end, or today when open. */
  function EffectiveEnd(r: Rental, today: int): int {
    r.end.GetOr(today)
  }

  /** `(e - s).days + 1`. */
  function RentalDays(r: Rental, today: int): int {
    EffectiveEnd(r, today) - r.start + 1
  }

  /** `days_rented`: the days of all the car's rentals added up. */
  function RentedDays(rs: seq<Rental>, carId: int, today: int): int {
    if rs == [] then 0
    else RentedDays(rs[..|rs| - 1], carId, today)
         + (if rs[|rs| - 1].carId == carId then RentalDays(rs[|rs| - 1], today) else 0)
  }

  /** A car never rented has no days rented; the count is not negative when
      each of the car's rentals spans at least one day. */
  lemma {:induction false} RentedDaysBounds(rs: seq<Rental>, carId: int, today: int)
    ensures (forall i :: 0 <= i < |rs| ==> rs[i].carId != carId) ==> RentedDays(rs, carId, today) == 0
    ensures (forall i :: 0 <= i < |rs| && rs[i].carId == carId ==> RentalDays(rs[i], today) >= 1)
            ==> RentedDays(rs, carId, today) >= 0
  {
    if rs != [] {
      RentedDaysBounds(rs[..|rs| - 1], carId, today);
    }
  }

  /** The loop that computes `days_rented`. */
  method DaysRented(rs: seq<Rental>, carId: int, today: int) returns (days: int)
    ensures days == RentedDays(rs, carId, today)
  {
    days := 0;
    var i := 0;
    while i < |rs|
      invariant 0 <= i <= |rs|
      invariant days == RentedDays(rs[..i], carId, today)
    {
      assert rs[..i + 1][..i] == rs[..i];
      if rs[i].carId == carId {
        var e := if rs[i].end.Some? then rs[i].end.value else today;
        days := days + (e - rs[i].start) + 1;
      }
      i := i + 1;
    }
    assert rs[..i] == rs;
  }

  /** `total_period`, never less than one day. */
  function TotalPeriod(earliest: int, today: int): (p: int)
    ensures p >= 1
    ensures p >= today - earliest + 1
    ensures p == 1 || p == today - earliest + 1
  {
    if today - earliest + 1 < 1 then 1 else today - earliest + 1
  }

  /** The days a rental counts for, as a set. */
  function DaysOf(r: Rental, today: int): set<int> {
    Iota(r.start, if RentalDays(r, today) < 0 then 0 else RentalDays(r, today))
  }

  /** Every day on which some rental of car `carId` counts. */
  function CoveredDays(rs: seq<Rental>, carId: int, today: int): set<int> {
    if rs == [] then {}
    else CoveredDays(rs[..|rs| - 1], carId, today)
         + (if rs[|rs| - 1].carId == carId then DaysOf(rs[|rs| - 1], today) else {})
  }

  /** A day is covered exactly when one of the car's rentals counts it. */
  lemma {:induction false} CoveredDaysMember(rs: seq<Rental>, carId: int, today: int, x: int)
    ensures x in CoveredDays(rs, carId, today) <==>
      exists i :: 0 <= i < |rs| && rs[i].carId == carId && x in DaysOf(rs[i], today)
  {
    if rs != [] {
      var init := rs[..|rs| - 1];
      CoveredDaysMember(init, carId, today, x);
      assert forall i :: 0 <= i < |init| ==> init[i] == rs[i];
      if x in CoveredDays(rs, carId, today) && x !in CoveredDays(init, carId, today) {
        assert rs[|rs| - 1].carId == carId && x in DaysOf(rs[|rs| - 1], today);
      }
    }
  }

  /** A rental that started, and ended (or is open) by `today`. */
  predicate Past(r: Rental, today: int) {
    r.start <= EffectiveEnd(r, today) <= today
  }

  /** Rentals whose ranges do not intersect share no counted day. */
  lemma DisjointDays(a: Rental, b: Rental, today: int)
    requires !Overlaps(a.start, a.end, b.start, b.end)
    ensures DaysOf(a, today) * DaysOf(b, today) == {}
  {
  }

  /** Without overlaps, the days added up are the distinct days covered. */
  lemma {:induction false} RentedDaysCountsDistinctDays(rs: seq<Rental>, carId: int, today: int)
    requires NoOverlap(rs)
    requires forall i :: 0 <= i < |rs| && rs[i].carId == carId ==> Past(rs[i], today)
    ensures RentedDays(rs, carId, today) == |CoveredDays(rs, carId, today)|
  {
    if rs != [] {
      var init := rs[..|rs| - 1];
      var last := rs[|rs| - 1];
      assert forall i :: 0 <= i < |init| ==> init[i] == rs[i];
      RentedDaysCountsDistinctDays(init, carId, today);
      if last.carId == carId {
        var prev := CoveredDays(init, carId, today);
        forall x | x in prev ensures x !in DaysOf(last, today) {
          CoveredDaysMember(init, carId, today, x);
          var i :| 0 <= i < |init| && init[i].carId == carId && x in DaysOf(init[i], today);
          DisjointDays(rs[i], last, today);
        }
        assert prev * DaysOf(last, today) == {};
        assert |prev + DaysOf(last, today)| == |prev| + |DaysOf(last, today)|;
      }
    }
  }

  /** All the days covered lie between the car's first start and today. */
  lemma CoveredWithinPeriod(rs: seq<Rental>, carId: int, today: int)
    requires forall i :: 0 <= i < |rs| && rs[i].carId == carId ==> Past(rs[i], today)
    requires FirstStart(rs, carId).Some?
    ensures Earliest(rs, carId, today) <= today
    ensures CoveredDays(rs, carId, today) <= Iota(Earliest(rs, carId, today), today - Earliest(rs, carId, today) + 1)
  {
    var i :| 0 <= i < |rs| && rs[i].carId == carId && rs[i].start == FirstStart(rs, carId).value;
    assert Past(rs[i], today);
    forall x | x in CoveredDays(rs, carId, today)
      ensures x in Iota(Earliest(rs, carId, today), today - Earliest(rs, carId, today) + 1)
    {
      CoveredDaysMember(rs, carId, today, x);
    }
  }

  /** When the car's rentals never overlap and none reaches past today, the
      days rented never exceed the report period: utilisation is at most
      100%. */
  lemma UtilisationAtMostFull(rs: seq<Rental>, carId: int, today: int)
    requires NoOverlap(rs)
    requires forall i :: 0 <= i < |rs| && rs[i].carId == carId ==> Past(rs[i], today)
    ensures 0 <= RentedDays(rs, carId, today) <= TotalPeriod(Earliest(rs, carId, today), today)
  {
    RentedDaysCountsDistinctDays(rs, carId, today);
    if FirstStart(rs, carId).Some? {
      CoveredWithinPeriod(rs, carId, today);
      var e := Earliest(rs, carId, today);
      SubsetNoLarger(CoveredDays(rs, carId, today), Iota(e, today - e + 1));
    } else {
      forall x: int ensures x !in CoveredDays(rs, carId, today) {
        CoveredDaysMember(rs, carId, today, x);
      }
      assert CoveredDays(rs, carId, today) == {};
    }
  }

  lemma SubsetNoLarger(a: set<int>, b: set<int>)
    requires a <= b
    ensures |a| <= |b|
  {
    assert b == a + (b - a);
  }

  /** A fixed end after today is counted in full: a rental from yesterday
      to 30 days ahead gives 32 days rented in a 2-day period. */
  lemma FutureEndCountsAhead(r: Rental, today: int)
    requires r.start == today - 1 && r.end == Some(today + 30)
    ensures RentedDays([r], r.carId, today) == 32
    ensures TotalPeriod(Earliest([r], r.carId, today), today) == 2
  {
    assert [r][..0] == [];
  }

  /** A car first rented 9 days ago is measured over a 10-day period, not
      over the 365 days promised when the span is shorter than that. */
  lemma ShortHistoryNotWidened(r: Rental, today: int)
    requires r.start == today - 9
    ensures TotalPeriod(Earliest([r], r.carId, today), today) == 10 < 365
  {
    assert [r][..0] == [];
  }

  // ---------------------------------------------------------------------
  // Money

  /** The payment is on a rental of car `carId`: the join of payments with
      rentals on the rental id, filtered by the car. */
  predicate PaymentOnCar(p: Payment, rentals: seq<Rental>, carId: int) {
    match FindRental(rentals, p.rentalId)
    case None => false
    case Some(k) => rentals[k].carId == carId
  }

  /** `total_revenue`: the payments on the car's rentals. */
  function Revenue(ps: seq<Payment>, rentals: seq<Rental>, carId: int): int {
    if ps == [] then 0
    else Revenue(ps[..|ps| - 1], rentals, carId)
         + (if PaymentOnCar(ps[|ps| - 1], rentals, carId) then ps[|ps| - 1].amount else 0)
  }

  /** Revenue is 0 when no payment is on one of the car's rentals, and never
      negative for non-negative amounts. */
  lemma {:induction false} RevenueBounds(ps: seq<Payment>, rentals: seq<Rental>, carId: int)
    ensures (forall i :: 0 <= i < |ps| ==> !PaymentOnCar(ps[i], rentals, carId)) ==> Revenue(ps, rentals, carId) == 0
    ensures (forall i :: 0 <= i < |ps| ==> ps[i].amount >= 0) ==> Revenue(ps, rentals, carId) >= 0
  {
    if ps != [] {
      RevenueBounds(ps[..|ps| - 1], rentals, carId);
    }
  }

  /** A payment on the rental with id `rentalId` adds its amount to the
      revenue of that rental's car, and nothing to any other car's. */
  lemma RevenueOfNewPayment(ps: seq<Payment>, rentals: seq<Rental>, k: nat, amount: int, date: int, location: string, carId: int)
    requires k < |rentals|
    requires forall i :: 0 <= i < |rentals| && i != k ==> rentals[i].id != rentals[k].id
    ensures Revenue(ps + [Payment(rentals[k].id, amount, date, location)], rentals, carId)
            == Revenue(ps, rentals, carId) + (if rentals[k].carId == carId then amount else 0)
  {
    var p := Payment(rentals[k].id, amount, date, location);
    assert (ps + [p])[..|ps|] == ps;
    assert FindRental(rentals, p.rentalId) == Some(k);
  }

  /** `car_expenses`. */
  function ExpenseTotal(es: seq<Expense>, carId: int): int {
    if es == [] then 0
    else ExpenseTotal(es[..|es| - 1], carId) + (if es[|es| - 1].carId == carId then es[|es| - 1].cost else 0)
  }

  /** A car without expenses has expenses 0; non-negative costs never add up
      to a negative total. */
  lemma {:induction false} ExpenseTotalBounds(es: seq<Expense>, carId: int)
    ensures (forall i :: 0 <= i < |es| ==> es[i].carId != carId) ==> ExpenseTotal(es, carId) == 0
    ensures (forall i :: 0 <= i < |es| ==> es[i].cost >= 0) ==> ExpenseTotal(es, carId) >= 0
  {
    if es != [] {
      ExpenseTotalBounds(es[..|es| - 1], carId);
    }
  }

  /** The charges of car `carId` of one kind, paid or not. */
  function CarCharges(cs: seq<Charge>, carId: int): int {
    Sum(cs, (c: Charge) => c.carId == carId)
  }

  /** Two charge lists with the same cars and amounts position by position. */
  predicate SameCosts(a: seq<Charge>, b: seq<Charge>) {
    |a| == |b| && forall i :: 0 <= i < |a| ==> a[i].carId == b[i].carId && a[i].amount == b[i].amount
  }

  lemma {:induction false} CarChargesSameCosts(a: seq<Charge>, b: seq<Charge>, carId: int)
    requires SameCosts(a, b)
    ensures CarCharges(a, carId) == CarCharges(b, carId)
  {
    if a != [] {
      CarChargesSameCosts(a[..|a| - 1], b[..|b| - 1], carId);
    }
  }

  /** Paying off charges, whether via rent or via the deposit, leaves every
      car's reported costs unchanged. */
  lemma {:induction false} PayingKeepsCarCosts(cs: seq<Charge>, r: Rental, sc: Scope, ids: seq<int>, carId: int)
    ensures CarCharges(SettleOutstanding(cs, r, sc), carId) == CarCharges(cs, carId)
    ensures CarCharges(MarkSelected(cs, ids), carId) == CarCharges(cs, carId)
  {
    CarChargesSameCosts(SettleOutstanding(cs, r, sc), cs, carId);
    MarkSelectedSameCosts(cs, ids);
    CarChargesSameCosts(MarkSelected(cs, ids), cs, carId);
  }

  lemma {:induction false} MarkSelectedSameCosts(cs: seq<Charge>, ids: seq<int>)
    ensures SameCosts(MarkSelected(cs, ids), cs)
  {
    if ids != [] {
      var prev := MarkSelected(cs, ids[..|ids| - 1]);
      MarkSelectedSameCosts(cs, ids[..|ids| - 1]);
      var id := ids[|ids| - 1];
      match FindFirst(prev, (c: Charge) => c.id == id)
      case None =>
      case Some(k) =>
        assert MarkSelected(cs, ids) == prev[k := SettledBy(prev[k], Rent)];
    }
  }

  /** One row of the report.  Percentages are exact: the rounding to two
      decimals is not modelled. */
  datatype ReportRow = ReportRow(
    carId: int,
    utilisation: real,
    daysRented: int,
    revenue: int,
    expenses: int,
    profitLoss: int,
    recovery: Option<real>)

  /** `pc` is `part` as a percentage of `whole`: times the whole it is 100
      times the part. */
  predicate IsPercentage(pc: real, part: int, whole: int) {
    pc * whole as real == 100.0 * part as real
  }

  /** `part / whole * 100`, exactly. */
  function Percentage(part: int, whole: int): (pc: real)
    requires whole > 0
    ensures IsPercentage(pc, part, whole)
  {
    var q := part as real / whole as real;
    assert q * whole as real == part as real;
    q * 100.0
  }

  /** `purchase + investment`. */
  function Invested(c: Car): int {
    c.purchasePrice + c.initialInvestment
  }

  /** The report row of one car. */
  function CarReport(c: Car, rentals: seq<Rental>, payments: seq<Payment>, expenses: seq<Expense>,
                     fines: seq<Charge>, damages: seq<Charge>, salik: seq<Charge>, today: int): (row: ReportRow)
    ensures row.carId == c.id
    ensures row.daysRented == RentedDays(rentals, c.id, today)
    ensures row.revenue == Revenue(payments, rentals, c.id)
    ensures row.expenses == ExpenseTotal(expenses, c.id) + CarCharges(fines, c.id)
                            + CarCharges(damages, c.id) + CarCharges(salik, c.id)
    ensures row.profitLoss == row.revenue - row.expenses - Invested(c)
    ensures IsPercentage(row.utilisation, row.daysRented, TotalPeriod(Earliest(rentals, c.id, today), today))
    ensures row.recovery.Some? <==> Invested(c) > 0
    ensures row.recovery.Some? ==> (row.recovery.value >= 100.0 <==> row.revenue >= Invested(c))
  {
    var days := RentedDays(rentals, c.id, today);
    var period := TotalPeriod(Earliest(rentals, c.id, today), today);
    var revenue := Revenue(payments, rentals, c.id);
    var costs := ExpenseTotal(expenses, c.id) + CarCharges(fines, c.id) + CarCharges(damages, c.id)
                 + CarCharges(salik, c.id);
    RowOf(c.id, days, period, revenue, costs, Invested(c))
  }

  /** The figures of a row from its totals. */
  function RowOf(carId: int, days: int, period: int, revenue: int, costs: int, invested: int): (row: ReportRow)
    requires period > 0
    ensures row.carId == carId && row.daysRented == days && row.revenue == revenue && row.expenses == costs
    ensures row.profitLoss == revenue - costs - invested
    ensures IsPercentage(row.utilisation, days, period)
    ensures row.recovery.Some? <==> invested > 0
    ensures row.recovery.Some? ==> (row.recovery.value >= 100.0 <==> revenue >= invested)
  {
    var recovery := if invested > 0 then
      RecoveryThreshold(revenue, invested);
      Some(Percentage(revenue, invested))
    else None;
    ReportRow(carId, Percentage(days, period), days, revenue, costs, revenue - costs - invested, recovery)
  }

  /** Recovery reaches 100% exactly when revenue reaches the investment. */
  lemma RecoveryThreshold(revenue: int, invested: int)
    requires invested > 0
    ensures Percentage(revenue, invested) >= 100.0 <==> revenue >= invested
  {
    var pc, x := Percentage(revenue, invested), invested as real;
    assert IsPercentage(pc, revenue, invested);
    assert pc * x == 100.0 * revenue as real;
    if pc >= 100.0 {
      assert (pc - 100.0) * x >= 0.0;
    } else {
      assert (100.0 - pc) * x > 0.0;
    }
  }

  /** The report, one row per car in car order. */
  function FleetReport(cars: seq<Car>, rentals: seq<Rental>, payments: seq<Payment>, expenses: seq<Expense>,
                       fines: seq<Charge>, damages: seq<Charge>, salik: seq<Charge>, today: int): (rows: seq<ReportRow>)
    ensures |rows| == |cars|
    ensures forall i :: 0 <= i < |cars| ==> rows[i].carId == cars[i].id
    ensures forall i :: 0 <= i < |cars| ==>
      rows[i] == CarReport(cars[i], rentals, payments, expenses, fines, damages, salik, today)
  {
    seq(|cars|, i requires 0 <= i < |cars| =>
      CarReport(cars[i], rentals, payments, expenses, fines, damages, salik, today))
  }

  /** A car rented since 30 days ago on an open contract is utilised 100%
      over a 31-day period. */
  lemma OpenRentalFullyUtilised(r: Rental, today: int)
    requires r.start == today - 30 && r.end.None?
    ensures RentedDays([r], r.carId, today) == 31
    ensures TotalPeriod(Earliest([r], r.carId, today), today) == 31
  {
    assert [r][..0] == [];
  }
}
