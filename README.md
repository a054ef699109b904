# Car rental fleet: a verified model of the billing, settlement and fleet core

This project models the core rules of a small car rental application
(`app.py`, a Flask application over a relational store):

- **dates and occupancy**: whether a car is rented, booked or available on a day, and what the availability page says about it;
- **admission**: the overlap check that admits a new rental, the weaker conflict check for bookings, and the absence of any check when a rental is edited;
- **billing**: the amount due on a rental, which is whole billing intervals at a flat rate, plus outstanding fines, damages and Salik (toll) charges, minus payments;
- **the charge ledger**: charges are paid off "via rent" when a payment is recorded, or "via deposit" when the rental is settled; the settlement also computes the refundable deposit and closes the rental;
- **fleet ordering**: every car gets an order entry, and the entries are renumbered 1..N; the move-up and move-down buttons swap a car with its neighbour;
- **defleet**: a car leaves the active fleet, refused while a rental is still active;
- **reports**: days rented, utilisation, revenue, costs, profit and recovery per car.

Dates are whole day numbers. An absent end date is `None` and counts as unbounded.
Money is modelled as integers. Each table of the store is a sequence, held as a field of the class `Store.Store`. Its methods reassign those fields the way the routes update rows. The loops that build or update a table, and the loops that accumulate a running total or keep a running best, are methods proved equal to a specification function. Two first-match loops are methods proved against a specification: the conflict loop of `add_rental` (`Admission.FindRentalConflict`) and the blocker loop of `defleet_car` (`Store.FindDefleetBlocker`). The other first-match searches are functions over the sequence: `is_rented_today`, `is_booked_today`, the availability page's searches, the conflict loop of `add_booking`, and the report's `min`. The report's per-car loop builds `report_rows` and is the function `Reports.FleetReport`, one row per car. The properties are lemmas about the specification functions.

Modules, leaves first:

| file | module | contents |
|---|---|---|
| basics.dfy | `Basics` | `Option`, `Result`, `Max`, the fresh-key rule, Python's `//` as `FloorDiv`, first-match search |
| records.dfy | `Records` | cars, rentals, payments, charges, bookings, expenses, order entries, defleet records, errors |
| dates.dfy | `Dates` | inclusive day ranges, the open-ended overlap test |
| occupancy.dfy | `Occupancy` | rented / booked / available, availability status, dashboard counts |
| admission.dfy | `Admission` | rental overlap admission, new-rental record, edit, booking conflict |
| ledger.dfy | `Ledger` | outstanding charges, settlement preview and commit, settle via rent, remaining deposit |
| billing.dfy | `Billing` | period end, intervals, rate, base rent, payments, amount due |
| ordering.dfy | `Ordering` | `ensure_car_order`, renumbering, move up / down |
| reports.dfy | `Reports` | the per-car report |
| store.dfy | `Store` | the store class and the routes that change it, defleet |

The model follows the code where it departs from the behaviour the application is meant to have:

- **Editing a rental** is meant to be subject to the same overlap check as creating one. `edit_rental` performs no check, and `EditCanBreakNoOverlap` shows an edit that breaks the no-overlap property.
- **Settlement** is meant to be one-way, but nothing refuses a second settlement of the same rental. The second one recomputes over charges that are now all paid, and records the whole deposit as refunded (`SecondSettlementRefundsWholeDeposit`).
- **A rental queried before its start date** bills a negative number of intervals rather than at least zero (`IntervalsBeforeStart`). The comment at app.py:1365 promises one interval only once the rental has started.
- **A fixed end date later than today** is counted in full by the report. Utilisation can therefore exceed 100% (`FutureEndCountsAhead`).
- **The report's period** is meant to be 365 days when the span from the earliest start is shorter (the docstring at app.py:1231-1233). The code only floors it at one day, so a car first rented 9 days ago is measured over 10 days (`ShortHistoryNotWidened`).

## Model

| member | source | states |
|---|---|---|
| Basics.FloorDiv | app.py:1366 | Python's floor division: `q*b <= a < q*b + b` for a positive divisor, and the mirrored bounds for a negative one |
| Basics.FloorDivMonotone | app.py:1366 | floor division by a positive divisor is monotone in the dividend |
| Basics.FreshKey | app.py:685-686 | the key the store gives a new row (car or rental) lies above the key of every row in use, and is at least 1 |
| Records.RentalsOf | app.py:657 | `filter_by(car_id=…)`: exactly the rentals of the car |
| Records.RentalsOfConcat | app.py:1309 | the car's rentals keep store order: those of a concatenation are those of each part, in turn |
| Records.ViaOf | app.py:892-895 | a stored `settled_via` label reads as Rent exactly for "rent", Deposit exactly for "deposit", unset exactly when null, and any other text as itself; so the ledger's test for "deposit" is the test for Deposit |
| Records.FindRental | app.py:1120 | `get_or_404` by id: absent exactly when no rental has the id, otherwise a rental with that id |
| Dates.InRange | app.py:1302-1304 | `date_in_range` holds exactly when the day lies in the closed range, the same test as a range with that end date |
| Dates.Overlaps | app.py:661-664 | for well-formed ranges the two comparisons hold exactly when the later start lies in both ranges |
| Dates.OverlapsSymmetric | app.py:661-664 | the open-ended overlap test does not depend on which range is the new one |
| Dates.OverlapsIffCommonDay | app.py:661-664 | for well-formed ranges, the overlap test holds exactly when the ranges share a day (both directions) |
| Dates.OverlapExamples | app.py:661-664 | [1,10] meets [5,15] but not [11,20]; an open range from day 1 meets [100,120]; an open range from day 30 does not meet [1,29] |
| Occupancy.BookingsOf | app.py:1318 | `car.bookings`: exactly the bookings of the car |
| Occupancy.BookingsOfConcat | app.py:1318 | the car's bookings keep store order |
| Occupancy.FirstActive | app.py:1309-1313 | the first rental in list order that has started and not ended; none exactly when no rental is active |
| Occupancy.FirstBooked | app.py:1318-1321 | the first booking whose inclusive range contains the day; none exactly when there is none |
| Occupancy.IsRentedToday | app.py:1307-1313 | rented exactly when some rental of the car has started and not ended (open rentals never end) |
| Occupancy.IsBookedToday | app.py:1316-1321 | booked exactly when some booking's inclusive range contains the day |
| Occupancy.CarStatus | app.py:1075-1106 | Rented wins over Booked, Booked over Available (each an if-and-only-if); the info is "available from end+1" or "open ended" for the first active rental, or the end of the first booking |
| Occupancy.AvailableFromIsAfterToday | app.py:1089-1092 | the "available from" day reported for a rented car is after the query day |
| Occupancy.RentedOfCarMatchesStore | app.py:1307-1313 | looking through the car's own rentals finds an active one exactly when the store has an active rental of the car |
| Occupancy.BookedOfCarMatchesStore | app.py:1316-1321 | looking through the car's own bookings finds one covering the day exactly when the store has such a booking of the car |
| Occupancy.StatusOfCar | app.py:1075-1106 | over the whole store: Rented exactly when a rental of the car is active, Booked exactly when none is and a booking of the car covers the day, Available exactly when neither |
| Occupancy.ShownCars | app.py:1070-1073 | the availability page lists exactly the cars without a defleet record |
| Occupancy.RentedCount | app.py:364 | the dashboard's rented count is at most the number of cars; `DashboardRentedMatchesStatus` ties it to the availability status |
| Occupancy.BookedCount | app.py:365 | the dashboard's booked count (booked and not rented) is at most the number of cars; `DashboardBookedMatchesStatus` ties it to the availability status |
| Occupancy.DashboardRentedMatchesStatus | app.py:364 | the dashboard's rented count equals the number of cars whose availability status is Rented |
| Occupancy.DashboardBookedMatchesStatus | app.py:365 | the dashboard's booked count equals the number of cars whose availability status is Booked |
| Occupancy.DashboardAvailableMatchesStatus | app.py:364-366 | `total - rented - booked` equals the number of cars whose availability status is Available |
| Occupancy.ListedAsAvailable | app.py:1070-1104 | a car is listed as Available exactly when it is in the fleet, not defleeted, and no rental or booking of it covers the day |
| Admission.FindRentalConflict | app.py:656-667 | the loop finds a conflict exactly when some rental of the car intersects the new range, settled or not, and returns the first one |
| Admission.RentalAdmissionExamples | app.py:656-667 | [1,10] blocks [5,15] and an open range from day 10 on the same car; it does not block [11,20] or any range on another car |
| Admission.AdmissionPreservesNoOverlap | app.py:656-686 | admitting only rentals that pass the check keeps every car's rentals pairwise non-overlapping |
| Admission.NewRental | app.py:672-684 | the stored rental carries the given id, car, customer, dates, rents and deposit; it has a 30-day interval, next billing 30 days after the start, a contract type set by the presence of an end date, and no refund |
| Admission.Edited | app.py:696-711 | the edited rental carries the form's car, customer, dates, rents and deposit and the contract type they imply; its id, settlement state and billing schedule are kept |
| Admission.EditCanBreakNoOverlap | app.py:696-711 | editing writes the new range without checking it, and can create an overlap |
| Admission.BookingBlocker | app.py:1009-1022 | only the first rental of the car active on the booking's first day is considered; it blocks exactly when it has a fixed end, and the result is that end |
| Admission.BookingRefusedOnlyWhenRentedOnStart | app.py:1009-1022 | a refused booking always starts on a day the car is rented |
| Admission.BookingCheckGaps | app.py:1013-1018 | an open-ended rental never blocks a booking, and neither does a rental that starts after the booking's first day |
| Ledger.SettleOutstanding | app.py:1133-1142 | settlement keeps the length of each charge table |
| Ledger.SettleList | app.py:1133-1142 | the in-place marking loop gives exactly the settled table: outstanding charges of the rental become paid via deposit, all others are unchanged |
| Ledger.SettleClearsOutstanding | app.py:1133-1142 | after settlement nothing of the rental is outstanding |
| Ledger.SettleClearsChargesDue | app.py:1133-1142 | after settlement the rental's charges due are 0 |
| Ledger.PayingChargeDropsItsAmount | app.py:1373-1380 | paying one outstanding charge, by either route, lowers the rental's outstanding total by exactly its amount |
| Ledger.OutstandingTotalSameParties | app.py:1122-1125 | the outstanding total depends only on the rental's id, car and customer |
| Ledger.SumBounds | app.py:1126-1128 | a sum of `amount or 0` over no selected charge is 0, and over non-negative amounts is not negative |
| Ledger.ChargesDue | app.py:1373-1379 | the outstanding fines, damages and Salik entries of the rental: 0 when none is outstanding, never negative for non-negative amounts |
| Ledger.Refundable | app.py:1129-1130 | the refund is never negative; it is at most the deposit when both are non-negative; it is the deposit minus the charges when these fit; it is 0 otherwise |
| Ledger.SettlementPreview | app.py:1122-1130 | the preview's total is the charges due, and the refund is `Refundable` of the deposit and that total: the deposit minus the total when it fits, 0 when the charges exceed the deposit, never negative |
| Ledger.Closed | app.py:1144-1150 | the rental is marked refunded, with the refund amount and today's date; an open rental ends today as fixed; id, car, customer, start, rents, deposit, billing interval and next billing date are kept |
| Ledger.SecondSettlementRefundsWholeDeposit | app.py:1120-1150 | a second settlement finds no charges and records the whole deposit as refunded |
| Ledger.SettlementExample | app.py:1126-1142 | a deposit of 5000 with a fine of 1200 and a Salik entry of 300 refunds 3500, and both charges become paid via deposit |
| Ledger.MarkOne | app.py:759-763 | marking keeps the table's length |
| Ledger.MarkSelected | app.py:755-775 | marking all selected ids keeps the table's length |
| Ledger.MarkOneAt | app.py:759-763 | with unique ids, exactly the charge with the id becomes paid via rent |
| Ledger.MarkSelectedAt | app.py:755-775 | every charge whose id was selected becomes paid via rent, and every other charge is unchanged |
| Ledger.MarkViaRent | app.py:759-775 | the nested loops compute exactly the selection marking, with the pointwise effect above |
| Ledger.DepositBalance | app.py:1324-1339 | the remaining deposit is never negative, and is 0 when there is no deposit |
| Ledger.ComputeDepositBalance | app.py:1324-1339 | the running subtraction equals the remaining-deposit function |
| Ledger.SettleAddsToDepositTaken | app.py:1133-1138 | settlement moves exactly the outstanding total into the charges taken from the deposit |
| Ledger.DepositBalanceMatchesRefund | app.py:1324-1339 | after a first settlement with no Salik outstanding, the remaining deposit equals the recorded refund |
| Billing.PeriodEnd | app.py:1363 | the billed period ends at the end date once that has passed, otherwise today; never later than either |
| Billing.IntervalDays | app.py:1366 | `billing_interval_days or 30`: a stored non-zero interval is used as is, an unset or 0 interval gives 30, so the interval is never 0 |
| Billing.Intervals | app.py:1364-1366 | `days // interval + 1` counts the intervals begun: `n - 1` whole intervals fit into the days elapsed and `n` do not (mirrored for a negative interval); a started rental with a positive interval bills at least one |
| Billing.Rate | app.py:1368 | `actual_rent` if set, else `planned_rent`, else 0 |
| Billing.BaseDue | app.py:1368-1369 | the rate times the intervals billed: a started rental at a non-negative rate and positive interval bills at least one interval's rent, and the rent beyond the first interval is at most the rate prorated over the days elapsed |
| Billing.PeriodEndMonotone | app.py:1363 | the billed period never shrinks as the query day advances |
| Billing.BaseDueMonotone | app.py:1363-1369 | with a non-negative rate, the base rent never decreases as the query day advances |
| Billing.BaseDueFrozenAfterEnd | app.py:1363-1369 | after the end date the base rent no longer changes |
| Billing.BaseDueExample | app.py:1363-1369 | 3000 per 30 days asked on day 45 bills two intervals, 6000 |
| Billing.IntervalsBeforeStart | app.py:1363-1369 | asked 40 days before an open rental starts, the count is -1 and the base rent -3000 |
| Billing.PaymentsTotal | app.py:1371 | the payments on the rental: 0 when none is on it, never negative for non-negative amounts |
| Billing.PaymentsTotalAppend | app.py:1371 | a new payment adds its amount to its own rental's total and nothing to other rentals |
| Billing.PaymentLowersDue | app.py:1371-1380 | recording a payment lowers the amount due by exactly its amount |
| Billing.DueAmount | app.py:1380 | base rent plus the charge total the settlement page shows, minus the rental's payments; with no payment and nothing outstanding, the base rent |
| Ordering.MaxIndexOr0 | app.py:254 | `max(order_index) or 0` bounds every index, and is 0 for an empty table |
| Ordering.Missing | app.py:255-257 | the cars without an entry, none of them already present |
| Ordering.MissingUnique | app.py:255-257 | with unique car ids, no car is added twice |
| Ordering.Numbered | app.py:258-259 | new entries are numbered on from the maximum, one apart |
| Ordering.AppendMissing | app.py:254-259 | the first loop of `ensure_car_order` appends exactly the numbered missing cars |
| Ordering.NormalizeLayout | app.py:251-265 | `ensure_car_order` keeps the existing entries' positions and cars, and appends one entry for each missing car in car order |
| Ordering.RenumberOrders | app.py:262-264 | the second loop gives every entry its 1-based place in the sorted order |
| Ordering.Renumber | app.py:262-264 | renumbering keeps every entry's position and car and gives it an index of at least 1 |
| Ordering.RankMonotone | app.py:262 | an entry earlier in the sorted order gets a smaller number |
| Ordering.RankInjective | app.py:262-264 | the places are below N and pairwise distinct |
| Ordering.RankSurjective | app.py:262-264 | every place from 0 to N-1 is taken |
| Ordering.RenumberConsecutive | app.py:262-264 | after renumbering the indices are exactly 1..N, and every entry keeps its car |
| Ordering.RenumberKeepsOrder | app.py:262-264 | renumbering keeps the relative order of the indices |
| Ordering.NormalizeConsecutive | app.py:251-265 | after `ensure_car_order` the indices are exactly 1..N |
| Ordering.NormalizeCoversCars | app.py:251-265 | after `ensure_car_order` every car has exactly one entry |
| Ordering.NormalizeKeepsOrder | app.py:251-265 | old entries keep their relative order, and new entries follow them in car order |
| Ordering.PositionOf | app.py:275 | the car's entry, absent exactly when the car has none |
| Ordering.PrevAmong | app.py:279 | the entry with the largest smaller index; none exactly when the car has the smallest index |
| Ordering.NextAmong | app.py:293 | the entry with the smallest larger index; none exactly when the car has the largest index |
| Ordering.FindPrev | app.py:279 | the search for the entry above is that entry |
| Ordering.FindNext | app.py:293 | the search for the entry below is that entry |
| Ordering.PrevIsAdjacent | app.py:279 | on a renumbered table the entry above has index one less, and is missing exactly at index 1 |
| Ordering.NextIsAdjacent | app.py:293 | on a renumbered table the entry below has index one more, and is missing exactly at index N |
| Ordering.SwapKeepsConsecutive | app.py:279-296 | swapping two indices keeps the indices 1..N and every entry's car |
| Ordering.MovedUp | app.py:273-283 | moving up keeps the table's length and every entry's car, and changes nothing for a car without an entry |
| Ordering.MovedDown | app.py:287-297 | moving down keeps the table's length and every entry's car, and changes nothing for a car without an entry |
| Ordering.MoveUp | app.py:275-282 | the move-up body computes the moved-up table |
| Ordering.MoveDown | app.py:289-296 | the move-down body computes the moved-down table |
| Ordering.MoveUpSpec | app.py:273-283 | a move up swaps the car with the car at the index above, or changes nothing at index 1; nothing else changes, and the indices stay 1..N |
| Ordering.MoveDownSpec | app.py:287-297 | a move down swaps the car with the car at the index below, or changes nothing at index N; nothing else changes, and the indices stay 1..N |
| Reports.FirstStart | app.py:1244-1248 | the earliest start among the car's rentals, absent exactly when it has none |
| Reports.DaysRented | app.py:1250-1256 | the loop adds up `end - start + 1` over the car's rentals, with today for an open end |
| Reports.RentedDaysBounds | app.py:1250-1256 | a car never rented has 0 days rented; the count is not negative when each rental spans at least a day |
| Reports.ShortHistoryNotWidened | app.py:1257-1259 | a car first rented 9 days ago is measured over 10 days, below the 365 the docstring promises |
| Reports.TotalPeriod | app.py:1257-1259 | the period is at least one day, and otherwise the days from the earliest start to today |
| Reports.CoveredDaysMember | app.py:1250-1256 | a day is covered exactly when one of the car's rentals counts it |
| Reports.RentedDaysCountsDistinctDays | app.py:1250-1256 | without overlaps, the days added up are the number of distinct days covered |
| Reports.UtilisationAtMostFull | app.py:1244-1260 | when a car's rentals never overlap and none reaches past today, days rented never exceed the period: utilisation is at most 100% |
| Reports.FutureEndCountsAhead | app.py:1255-1259 | a rental from yesterday to 30 days ahead counts 32 days in a 2-day period |
| Reports.OpenRentalFullyUtilised | app.py:1250-1259 | an open rental from 30 days ago counts 31 days in a 31-day period |
| Reports.RevenueOfNewPayment | app.py:1262-1263 | a payment adds its amount to the revenue of its rental's car, and nothing to any other car |
| Reports.RevenueBounds | app.py:1262-1263 | revenue is 0 when no payment is on one of the car's rentals, and never negative for non-negative amounts |
| Reports.ExpenseTotalBounds | app.py:1265 | the car's expenses are 0 when it has none, and never negative for non-negative costs |
| Reports.PayingKeepsCarCosts | app.py:1266-1269 | paying charges, via rent or via the deposit, leaves every car's reported costs unchanged |
| Reports.CarReport | app.py:1241-1281 | days rented is the day count of the car's rentals and revenue the payments joined to them; the costs are expenses plus all fines, damages and Salik of the car; profit is revenue minus costs minus the investment; utilisation times the period is 100 times the days rented; recovery is defined exactly for a positive investment, and reaches 100 exactly when revenue reaches the investment |
| Reports.Percentage | app.py:1260 | `part / whole * 100` without rounding: the percentage times the whole is 100 times the part |
| Reports.RowOf | app.py:1270-1289 | the row keeps the totals it is given; profit is revenue minus costs and investment; utilisation times the period is 100 times the days; recovery is defined exactly for a positive investment and reaches 100 exactly when revenue reaches it |
| Reports.RecoveryThreshold | app.py:1277-1279 | recovery reaches 100% exactly when revenue reaches the invested total |
| Reports.FleetReport | app.py:1240-1290 | one row per car, in car order, and each row is that car's report |
| Store.FindDefleetBlocker | app.py:311-314 | the loop finds a blocker exactly when some rental of the car is unsettled and open or ending today or later |
| Store.BlocksDefleet | app.py:311-314 | a settled rental never blocks; for a well-formed rental, an unsettled one blocks exactly when it is active today or has not started yet |
| Store.SettledNeverBlocksDefleet | app.py:311-314 | a settled rental never blocks a defleet |
| Store.DefleetGuardCases | app.py:312 | an unsettled active rental blocks, an unsettled future rental blocks, and an unsettled rental that ended yesterday does not |
| Store.Store.EnsureCarOrder | app.py:251-265 | the order table becomes the normalised table: indices 1..N with an entry for every car |
| Store.Store.AddCar | app.py:565-573 | the car is appended and the order normalised; the extra entry the route would add is never needed |
| Store.Store.MoveCarUp | app.py:273-283 | the order table becomes the normalised table moved up, with indices 1..N |
| Store.Store.MoveCarDown | app.py:287-297 | the order table becomes the normalised table moved down, with indices 1..N |
| Store.Store.AddRental | app.py:656-686 | refused with the conflicting rental exactly when the new range intersects one; otherwise appended with a fresh id; non-overlap is kept |
| Store.Store.EditRental | app.py:693-711 | not found, or the fields are rewritten in place without a check |
| Store.Store.AddBooking | app.py:1009-1027 | refused with the blocking rental's end exactly when the booking check blocks; otherwise appended |
| Store.Store.AddPayment | app.py:742-776 | not found, or the payment is appended (raising the rental's payments by its amount) and every selected existing charge becomes paid via rent |
| Store.Store.SettleRental | app.py:1120-1151 | not found, or: the preview from the old charges, every outstanding charge of the rental paid via deposit, the rental closed, nothing left due |
| Store.Store.DefleetCar | app.py:306-321 | not found for an unknown car, refused while a rental blocks, otherwise a defleet record is added unless one exists |

## Left out

- **Web layer:** Flask routing and templates are not modelled: `flash`, `redirect`, form parsing, and the `strptime` date parsing. The model takes dates as day numbers, and a route refusal is an error value.
- **Storage:** SQLAlchemy sessions, commits, relationships and transaction atomicity are not modelled. Each table is a sequence.
- **Lookup order:** queries that return rows "in store order", and the order the store gives to equal sort keys, are modelled as sequence order. The renumbering breaks ties by table position.
- **Money:** amounts are floating point in the source and integers in the model. `round(…, 2)` in the report is not modelled, and the percentages are exact reals. An absent amount read as `or 0` is modelled as 0.
- **Other views:** these are not modelled:
  - the row order of the car list and the availability page (sorted by order index);
  - the `ensure_car_order` call those pages make before listing;
  - the car list's summary figures, including the average-age division;
  - the dashboard's calendar-month totals, upcoming renewals and overdue list (they rely on Gregorian month arithmetic).
- **Plain CRUD:** the add, edit and delete handlers that only copy form fields are not modelled. These cover customers, fines, damages, Salik entries, expenses and car expenses, plus the edit and delete handlers of cars, payments and bookings. File uploads and serving uploaded files are not modelled either.
- **Deleted customers:** `delete_customer` (app.py:479-484) deletes the customer row. The relationship at app.py:58 has no delete cascade, so the customer's rentals are left with a null customer. Settling such a rental, or showing its due summary, then fails on `rental.customer.fines`. The model has no deleted customers, so this failure is not modelled.
- **Charge labels:** the add and edit routes for fines and damages store whatever `settled_via` text the operator types. The model reads a stored label through `ViaOf`; the routes themselves are not modelled.
- **Bootstrap code:** `app_updated.py`, the command-line entry point and `init_db` are not part of this model (I/O bootstrap).
- **Notes and metadata:** booking notes, Salik dates and the descriptive fields of cars and customers play no part in the rules, and are left out.
- **Charge ownership:** selected charge ids in `add_payment` are not checked against the rental. The model marks any existing charge with a selected id, as the source does.
- Ledger.MarkOneAt: the pointwise statement requires unique charge ids, the primary key the store enforces.
- Ledger.MarkSelectedAt: the pointwise statement requires unique charge ids, the primary key the store enforces.
- Billing.Intervals: at least one interval is promised only for a started rental with a positive interval. A negative stored interval gets only the mirrored bounds.
- Billing.BaseDueMonotone: the statement requires a non-negative rate and a positive interval.
- Reports.UtilisationAtMostFull: the statement requires non-overlapping rentals that all ended (or are open) by today. The source can report more than 100% otherwise (`FutureEndCountsAhead`).
- Reports.CarReport: utilisation and recovery are stated as exact reals, without the rounding to two decimals.
