/** Fines, damages and Salik entries, and the two ways they are paid off:
    selected by the operator when a payment is recorded ("via rent"), or
    netted against the deposit when the rental is settled ("via deposit"). */
module Ledger {
  import opened Basics
  import opened Records

  /** Which charges belong to a rental: fines and damages by the rental's
      car and customer, Salik entries by the rental itself. */
  datatype Scope = CarAndCustomer | RentalOnly

  predicate InScope(c: Charge, r: Rental, sc: Scope) {
    match sc
    case CarAndCustomer => c.carId == r.carId && c.ownerId == r.customerId
    case RentalOnly => c.ownerId == r.id
  }

  /** A charge of the rental that has not been paid. */
  predicate Outstanding(c: Charge, r: Rental, sc: Scope) {
    InScope(c, r, sc) && !c.paid
  }

  /** `sum(c.amount or 0 for c in cs if p(c))`. */
  function Sum(cs: seq<Charge>, p: Charge -> bool): int {
    if cs == [] then 0
    else Sum(cs[..|cs| - 1], p) + (if p(cs[|cs| - 1]) then cs[|cs| - 1].amount else 0)
  }

  /** A sum over no selected charge is 0; a sum of non-negative amounts is
      not negative. */
  lemma {:induction false} SumBounds(cs: seq<Charge>, p: Charge -> bool)
    ensures (forall i :: 0 <= i < |cs| ==> !p(cs[i])) ==> Sum(cs, p) == 0
    ensures (forall i :: 0 <= i < |cs| ==> cs[i].amount >= 0) ==> Sum(cs, p) >= 0
  {
    if cs != [] {
      SumBounds(cs[..|cs| - 1], p);
    }
  }

  /** The total of a rental's outstanding charges of one kind. */
  function OutstandingTotal(cs: seq<Charge>, r: Rental, sc: Scope): int {
    Sum(cs, (c: Charge) => Outstanding(c, r, sc))
  }

  /** `charges_due` of the due summary, which is also `total_charges` of
      the settlement preview: 0 when no fine, damage or Salik entry of the
      rental is outstanding, never negative for non-negative amounts. */
  function ChargesDue(r: Rental, fines: seq<Charge>, damages: seq<Charge>, salik: seq<Charge>): (total: int)
    ensures (forall i :: 0 <= i < |fines| ==> !Outstanding(fines[i], r, CarAndCustomer))
            && (forall i :: 0 <= i < |damages| ==> !Outstanding(damages[i], r, CarAndCustomer))
            && (forall i :: 0 <= i < |salik| ==> !Outstanding(salik[i], r, RentalOnly))
            ==> total == 0
    ensures (forall i :: 0 <= i < |fines| ==> fines[i].amount >= 0)
            && (forall i :: 0 <= i < |damages| ==> damages[i].amount >= 0)
            && (forall i :: 0 <= i < |salik| ==> salik[i].amount >= 0)
            ==> total >= 0
  {
    SumBounds(fines, (c: Charge) => Outstanding(c, r, CarAndCustomer));
    SumBounds(damages, (c: Charge) => Outstanding(c, r, CarAndCustomer));
    SumBounds(salik, (c: Charge) => Outstanding(c, r, RentalOnly));
    OutstandingTotal(fines, r, CarAndCustomer) + OutstandingTotal(damages, r, CarAndCustomer)
      + OutstandingTotal(salik, r, RentalOnly)
  }

  /** `c.paid = True; c.settled_via = via`. */
  function SettledBy(c: Charge, via: Via): Charge {
    c.(paid := true, via := via)
  }

  /** The charge after settlement against the deposit. */
  function SettleIfOutstanding(c: Charge, r: Rental, sc: Scope): Charge {
    if Outstanding(c, r, sc) then SettledBy(c, Deposit) else c
  }

  /** The charge list after `settle_rental` has marked every outstanding
      charge of the rental as paid via the deposit. */
  function SettleOutstanding(cs: seq<Charge>, r: Rental, sc: Scope): (out: seq<Charge>)
    ensures |out| == |cs|
  {
    seq(|cs|, i requires 0 <= i < |cs| => SettleIfOutstanding(cs[i], r, sc))
  }

  /** The marking loop of `settle_rental`, in place over the charge list. */
  method SettleList(cs: seq<Charge>, r: Rental, sc: Scope) returns (out: seq<Charge>)
    ensures out == SettleOutstanding(cs, r, sc)
  {
    out := cs;
    var i := 0;
    while i < |out|
      invariant 0 <= i <= |out| == |cs|
      invariant forall j :: 0 <= j < i ==> out[j] == SettleIfOutstanding(cs[j], r, sc)
      invariant forall j :: i <= j < |out| ==> out[j] == cs[j]
    {
      if out[i].ownerId == (if sc == RentalOnly then r.id else r.customerId)
         && (sc == RentalOnly || out[i].carId == r.carId)
         && !out[i].paid
      {
        out := out[i := out[i].(paid := true, via := Deposit)];
      }
      i := i + 1;
    }
  }

  /** After settlement nothing of the rental is outstanding. */
  lemma {:induction false} SettleClearsOutstanding(cs: seq<Charge>, r: Rental, sc: Scope)
    ensures OutstandingTotal(SettleOutstanding(cs, r, sc), r, sc) == 0
  {
    if cs != [] {
      var n := |cs|;
      assert SettleOutstanding(cs, r, sc)[..n - 1] == SettleOutstanding(cs[..n - 1], r, sc);
      SettleClearsOutstanding(cs[..n - 1], r, sc);
    }
  }

  /** After settlement the rental has no charges due. */
  lemma SettleClearsChargesDue(r: Rental, fines: seq<Charge>, damages: seq<Charge>, salik: seq<Charge>)
    ensures ChargesDue(r, SettleOutstanding(fines, r, CarAndCustomer), SettleOutstanding(damages, r, CarAndCustomer),
                       SettleOutstanding(salik, r, RentalOnly)) == 0
  {
    SettleClearsOutstanding(fines, r, CarAndCustomer);
    SettleClearsOutstanding(damages, r, CarAndCustomer);
    SettleClearsOutstanding(salik, r, RentalOnly);
  }

  /** Paid charges contribute nothing to what is due: marking one
      outstanding charge paid (by either route) lowers the rental's
      outstanding total by exactly its amount. */
  lemma {:induction false} PayingChargeDropsItsAmount(cs: seq<Charge>, k: nat, via: Via, r: Rental, sc: Scope)
    requires k < |cs| && Outstanding(cs[k], r, sc)
    ensures OutstandingTotal(cs[k := SettledBy(cs[k], via)], r, sc) == OutstandingTotal(cs, r, sc) - cs[k].amount
  {
    var n := |cs|;
    var cs' := cs[k := SettledBy(cs[k], via)];
    if k == n - 1 {
      assert cs'[..n - 1] == cs[..n - 1];
    } else {
      assert cs'[..n - 1] == cs[..n - 1][k := SettledBy(cs[k], via)];
      PayingChargeDropsItsAmount(cs[..n - 1], k, via, r, sc);
    }
  }

  /** The outstanding total depends only on the rental's id, car and
      customer. */
  lemma {:induction false} OutstandingTotalSameParties(cs: seq<Charge>, r: Rental, r': Rental, sc: Scope)
    requires r.id == r'.id && r.carId == r'.carId && r.customerId == r'.customerId
    ensures OutstandingTotal(cs, r, sc) == OutstandingTotal(cs, r', sc)
  {
    if cs != [] {
      OutstandingTotalSameParties(cs[..|cs| - 1], r, r', sc);
    }
  }

  /** `max(deposit - total_charges, 0)`: never negative, never more than a
      non-negative deposit when charges are non-negative, and any shortfall
      beyond the deposit is dropped. */
  function Refundable(deposit: int, totalCharges: int): (refund: int)
    ensures refund >= 0
    ensures deposit >= 0 && totalCharges >= 0 ==> refund <= deposit
    ensures totalCharges <= deposit ==> refund + totalCharges == deposit
    ensures totalCharges > deposit ==> refund == 0
  {
    Max(deposit - totalCharges, 0)
  }

  /** What the settlement page shows before the operator confirms. */
  datatype Preview = Preview(totalCharges: int, refundable: int)

  function SettlementPreview(r: Rental, fines: seq<Charge>, damages: seq<Charge>, salik: seq<Charge>): (p: Preview)
    ensures p.totalCharges == ChargesDue(r, fines, damages, salik)
    ensures p.refundable == Refundable(r.deposit, p.totalCharges)
  {
    var total := ChargesDue(r, fines, damages, salik);
    Preview(total, Refundable(r.deposit, total))
  }

  /** The rental record after a confirmed settlement on `today`: deposit
      refunded with the refundable amount, and an open rental closed today. */
  function Closed(r: Rental, refundable: int, today: int): (r': Rental)
    ensures r'.id == r.id && r'.carId == r.carId && r'.customerId == r.customerId && r'.start == r.start
    ensures r'.depositRefunded && r'.refundedAmount == Some(refundable) && r'.refundDate == Some(today)
    ensures r.end.Some? ==> r'.end == r.end && r'.contract == r.contract
    ensures r.end.None? ==> r'.end == Some(today) && r'.contract == Fixed
    ensures r'.deposit == r.deposit && r'.plannedRent == r.plannedRent && r'.actualRent == r.actualRent
    ensures r'.billingInterval == r.billingInterval && r'.nextBilling == r.nextBilling
  {
    r.(depositRefunded := true, refundedAmount := Some(refundable), refundDate := Some(today),
       end := if r.end.None? then Some(today) else r.end,
       contract := if r.end.None? then Fixed else r.contract)
  }

  /** Nothing stops a second settlement: it finds no outstanding charge and
      overwrites the refunded amount with the whole (non-negative) deposit. */
  lemma SecondSettlementRefundsWholeDeposit(r: Rental, fines: seq<Charge>, damages: seq<Charge>,
                                            salik: seq<Charge>, today: int)
    ensures var p := SettlementPreview(r, fines, damages, salik);
            var r' := Closed(r, p.refundable, today);
            var p' := SettlementPreview(r', SettleOutstanding(fines, r, CarAndCustomer),
                                        SettleOutstanding(damages, r, CarAndCustomer),
                                        SettleOutstanding(salik, r, RentalOnly));
            p'.totalCharges == 0 && p'.refundable == Max(r.deposit, 0)
  {
    var p := SettlementPreview(r, fines, damages, salik);
    var r' := Closed(r, p.refundable, today);
    SettleClearsOutstanding(fines, r, CarAndCustomer);
    SettleClearsOutstanding(damages, r, CarAndCustomer);
    SettleClearsOutstanding(salik, r, RentalOnly);
    OutstandingTotalSameParties(SettleOutstanding(fines, r, CarAndCustomer), r, r', CarAndCustomer);
    OutstandingTotalSameParties(SettleOutstanding(damages, r, CarAndCustomer), r, r', CarAndCustomer);
    OutstandingTotalSameParties(SettleOutstanding(salik, r, RentalOnly), r, r', RentalOnly);
  }

  /** `deposit = 5000` with an outstanding fine of 1200 and an outstanding
      Salik entry of 300 refunds 3500. */
  lemma SettlementExample(r: Rental, f: Charge, s: Charge)
    requires r.deposit == 5000
    requires f.carId == r.carId && f.ownerId == r.customerId && !f.paid && f.amount == 1200
    requires s.ownerId == r.id && !s.paid && s.amount == 300
    ensures SettlementPreview(r, [f], [], [s]) == Preview(1500, 3500)
    ensures SettleOutstanding([f], r, CarAndCustomer) == [SettledBy(f, Deposit)]
    ensures SettleOutstanding([s], r, RentalOnly) == [SettledBy(s, Deposit)]
  {
    assert [f][..0] == [] && [s][..0] == [];
    assert Outstanding(f, r, CarAndCustomer) && Outstanding(s, r, RentalOnly);
    assert OutstandingTotal([f], r, CarAndCustomer) == OutstandingTotal([], r, CarAndCustomer) + 1200;
    assert OutstandingTotal([s], r, RentalOnly) == OutstandingTotal([], r, RentalOnly) + 300;
  }

  // ---------------------------------------------------------------------
  // Settle via rent

  /** Charge ids are primary keys. */
  predicate UniqueIds(cs: seq<Charge>) {
    forall i, j :: 0 <= i < j < |cs| ==> cs[i].id != cs[j].id
  }

  /** `Charge.query.get(id)`, then `paid = True, settled_via = 'rent'` when
      found.  No check that the charge belongs to the rental being paid. */
  function MarkOne(cs: seq<Charge>, id: int): (out: seq<Charge>)
    ensures |out| == |cs|
  {
    match FindFirst(cs, (c: Charge) => c.id == id)
    case None => cs
    case Some(k) => cs[k := SettledBy(cs[k], Rent)]
  }

  /** The selection loop of `add_payment`, one selected id after another. */
  function MarkSelected(cs: seq<Charge>, ids: seq<int>): (out: seq<Charge>)
    ensures |out| == |cs|
  {
    if ids == [] then cs else MarkOne(MarkSelected(cs, ids[..|ids| - 1]), ids[|ids| - 1])
  }

  /** With unique ids, marking one id touches exactly the charge with that id. */
  lemma MarkOneAt(cs: seq<Charge>, id: int)
    requires UniqueIds(cs)
    ensures UniqueIds(MarkOne(cs, id))
    ensures forall i :: 0 <= i < |cs| ==>
      MarkOne(cs, id)[i] == if cs[i].id == id then SettledBy(cs[i], Rent) else cs[i]
  {
  }

  /** Settle via rent: every existing charge whose id was selected becomes
      paid via rent, every other charge is unchanged. */
  lemma {:induction false} MarkSelectedAt(cs: seq<Charge>, ids: seq<int>)
    requires UniqueIds(cs)
    ensures UniqueIds(MarkSelected(cs, ids))
    ensures forall i :: 0 <= i < |cs| ==>
      MarkSelected(cs, ids)[i] == if cs[i].id in ids then SettledBy(cs[i], Rent) else cs[i]
  {
    if ids != [] {
      var init := ids[..|ids| - 1];
      MarkSelectedAt(cs, init);
      MarkOneAt(MarkSelected(cs, init), ids[|ids| - 1]);
      forall i | 0 <= i < |cs|
        ensures MarkSelected(cs, ids)[i] == if cs[i].id in ids then SettledBy(cs[i], Rent) else cs[i]
      {
        assert cs[i].id in ids <==> cs[i].id in init || cs[i].id == ids[|ids| - 1] by {
          assert ids == init + [ids[|ids| - 1]];
        }
      }
    }
  }

  /** The marking loop of `add_payment` over the selected ids. */
  method MarkViaRent(cs: seq<Charge>, ids: seq<int>) returns (out: seq<Charge>)
    ensures out == MarkSelected(cs, ids)
    ensures UniqueIds(cs) ==> forall i :: 0 <= i < |cs| ==>
      out[i] == if cs[i].id in ids then SettledBy(cs[i], Rent) else cs[i]
  {
    out := cs;
    var n := 0;
    while n < |ids|
      invariant 0 <= n <= |ids|
      invariant out == MarkSelected(cs, ids[..n])
    {
      var id := ids[n];
      var i := 0;
      while i < |out| && out[i].id != id
        invariant 0 <= i <= |out|
        invariant forall j :: 0 <= j < i ==> out[j].id != id
      {
        i := i + 1;
      }
      if i < |out| {
        out := out[i := out[i].(paid := true, via := Rent)];
      }
      assert ids[..n + 1][..n] == ids[..n];
      n := n + 1;
    }
    assert ids[..n] == ids;
    if UniqueIds(cs) {
      MarkSelectedAt(cs, ids);
    }
  }

  // ---------------------------------------------------------------------
  // Remaining deposit

  /** A fine or damage of the rental's car and customer settled via the
      deposit. */
  predicate TakenFromDeposit(c: Charge, r: Rental) {
    c.carId == r.carId && c.ownerId == r.customerId && c.via == Deposit
  }

  /** The remaining deposit of `rental_deposit_balance`.  Salik entries are
      not subtracted, and a zero deposit gives 0 whatever the charges. */
  function DepositBalance(r: Rental, fines: seq<Charge>, damages: seq<Charge>): (b: int)
    ensures b >= 0
    ensures r.deposit == 0 ==> b == 0
  {
    if r.deposit == 0 then 0
    else Max(r.deposit - Sum(fines, (c: Charge) => TakenFromDeposit(c, r))
                       - Sum(damages, (c: Charge) => TakenFromDeposit(c, r)), 0)
  }

  /** The running subtraction of `rental_deposit_balance`. */
  method ComputeDepositBalance(r: Rental, fines: seq<Charge>, damages: seq<Charge>) returns (balance: int)
    ensures balance == DepositBalance(r, fines, damages)
  {
    if r.deposit == 0 {
      return 0;
    }
    balance := r.deposit;
    var i := 0;
    while i < |fines|
      invariant 0 <= i <= |fines|
      invariant balance == r.deposit - Sum(fines[..i], (c: Charge) => TakenFromDeposit(c, r))
    {
      if fines[i].carId == r.carId && fines[i].ownerId == r.customerId && fines[i].via == Deposit {
        balance := balance - fines[i].amount;
      }
      assert fines[..i + 1][..i] == fines[..i];
      i := i + 1;
    }
    assert fines[..i] == fines;
    var j := 0;
    while j < |damages|
      invariant 0 <= j <= |damages|
      invariant balance == r.deposit - Sum(fines, (c: Charge) => TakenFromDeposit(c, r))
                                      - Sum(damages[..j], (c: Charge) => TakenFromDeposit(c, r))
    {
      if damages[j].carId == r.carId && damages[j].ownerId == r.customerId && damages[j].via == Deposit {
        balance := balance - damages[j].amount;
      }
      assert damages[..j + 1][..j] == damages[..j];
      j := j + 1;
    }
    assert damages[..j] == damages;
    balance := Max(balance, 0);
  }

  /** An unpaid charge that does not already claim the deposit. */
  predicate NotPreTagged(cs: seq<Charge>) {
    forall i :: 0 <= i < |cs| ==> !cs[i].paid ==> cs[i].via != Deposit
  }

  /** Settling moves exactly the outstanding total into the charges taken
      from the deposit. */
  lemma {:induction false} SettleAddsToDepositTaken(cs: seq<Charge>, r: Rental)
    requires NotPreTagged(cs)
    ensures Sum(SettleOutstanding(cs, r, CarAndCustomer), (c: Charge) => TakenFromDeposit(c, r))
            == Sum(cs, (c: Charge) => TakenFromDeposit(c, r)) + OutstandingTotal(cs, r, CarAndCustomer)
  {
    if cs != [] {
      var n := |cs|;
      assert SettleOutstanding(cs, r, CarAndCustomer)[..n - 1] == SettleOutstanding(cs[..n - 1], r, CarAndCustomer);
      SettleAddsToDepositTaken(cs[..n - 1], r);
    }
  }

  /** After a first settlement of a rental with a deposit, nothing taken
      from it before and no Salik outstanding, the remaining deposit equals
      the refund the settlement recorded. */
  lemma DepositBalanceMatchesRefund(r: Rental, fines: seq<Charge>, damages: seq<Charge>, salik: seq<Charge>)
    requires r.deposit != 0
    requires NotPreTagged(fines) && NotPreTagged(damages)
    requires Sum(fines, (c: Charge) => TakenFromDeposit(c, r)) == 0
    requires Sum(damages, (c: Charge) => TakenFromDeposit(c, r)) == 0
    requires OutstandingTotal(salik, r, RentalOnly) == 0
    ensures DepositBalance(r, SettleOutstanding(fines, r, CarAndCustomer), SettleOutstanding(damages, r, CarAndCustomer))
            == SettlementPreview(r, fines, damages, salik).refundable
  {
    SettleAddsToDepositTaken(fines, r);
    SettleAddsToDepositTaken(damages, r);
  }
}
