# Taxi dispatch simulation — Dafny model

This project models the core of a taxi-dispatch simulation (UNIETAXI). A fixed fleet
of taxis and a set of clients share one simulated day. A clock advances one minute
per tick from 00:00 to 24:00. Each client repeatedly asks for a taxi within 2 km of
its origin and rides to a destination. The dispatcher picks the nearest free taxi,
breaking ties by better average rating and then by lower id. When a trip completes,
the taxi is freed, credited with the fare and rating, and moved to the destination.
A counter of trips in service lets the driver stop only once the day is closed and
every trip that has started service has ended.

Each lock-protected region of the program is modelled as one atomic step on an
immutable value:

- `Taxis`: the taxi record, its defaults, the average rating, and the initial fleet.
- `Clock`: the clock tick, the clock loop, the admission gate for new trips, and trip duration.
- `TimeFormat`: minute to `HH:MM (+Nd)` rendering, plus a reader it is checked against.
- `Ledger`: the counter of trips in service over a log of each client's service starts and ends.
- `Dispatch`: dispatch, trip completion and the fare formula.
- `Status`: the free/busy listing.
- `Summary`: the end-of-day winners.
- `Simulation`: one whole trip through the shared state.

Distances enter through squared distances. The radius test `dist <= 2.0` is
`dist^2 <= 4.0`. The sort key `round(dist, 6)` is a caller-given function `key` of
the squared distance. Every ordering property holds for any such key. `ChosenIsNearest`
adds that an order-preserving key yields a nearest taxi.

`unietaxi.py` is a single-file copy of the same logic over dict taxis, and the same
members model it:

- `minute_to_clock` (unietaxi.py:61-69) is `TimeFormat.MinuteToClock`.
- `clock_thread` (unietaxi.py:112-123) is `Clock.Tick` and `Clock.RunClock`.
- `assign_taxi` (unietaxi.py:145-169) is `Dispatch.AssignTaxi`. Its inline average is `Taxis.RatingAvg`.
- The inline trip finish (unietaxi.py:238-249) is `Dispatch.FinishTrip`.
- `final_summary` (unietaxi.py:285-298) is `Summary.FinalSummary`.
- The fleet built in `main` (unietaxi.py:316-328) is `Taxis.InitialFleet`.

## Model

| member | source | states |
|---|---|---|
| Taxis.NewTaxi | models.py:7-26 | a taxi built from id and position is free, unbound, with zero services, earnings, rating sum and count, so it satisfies free ⇔ no client |
| Taxis.RatingAvg | models.py:28-31 | the average is 0 with no ratings; otherwise average × count equals the rating sum |
| Taxis.AvgWithinRatingScale | models.py:31 | when every rating lies in 1..5, a rated taxi's average lies in [1, 5] and an unrated one's is 0 |
| Taxis.InitialFleet | main.py:60-63 | the start-up fleet has one taxi per drawn position, taxi i has id i + 1 and that position, every taxi is fresh, ids are distinct, and free ⇔ no client holds for all |
| Clock.Tick | sistema.py:60-69 | one clock pass never lowers the minute, advances it by exactly one below 1440 leaving the day open, changes it only then, closes the day exactly when the minute has reached 1440, and keeps minute ≤ 1440 with the day closed only at 1440 |
| Clock.Advance | sistema.py:60-69 | n passes of the clock loop never lower the minute nor raise it by more than n, change nothing once the day is closed, and keep minute ≤ 1440 with the day closed only at 1440; `AdvanceFrom` gives the exact state |
| Clock.AdvanceFrom | sistema.py:60-69 | from an open minute m, n passes reach m + n, or 1440 with the day closed once m + n exceeds 1440 |
| Clock.ClockTimeline | sistema.py:56-69 | n passes after the start show minute min(n, 1440); the day is closed exactly from pass 1441 on |
| Clock.RunClock | sistema.py:56-69 | the clock loop terminates with minute 1440 and the day closed, after 1441 passes |
| Clock.AdmissionClosesAtDayEnd | cliente.py:31-33 | on a reachable clock a client may start a trip exactly before 24:00, and a closed admission stays closed after a tick |
| Clock.TripDuration | cliente.py:46 | the trip length is the drawn value, or 1 when the draw is below 1 |
| Clock.TripEnd | cliente.py:46-47 | the planned end is start + drawn for a draw of at least 1 and start + 1 otherwise, so it lies after the start, and it may pass 24:00 |
| TimeFormat.Decimal | sistema.py:80 | the day count renders as a non-empty digit string with no leading zero that reads back as the number |
| TimeFormat.Pad2 | sistema.py:79 | a two-digit field is exactly two digits that read back as the number |
| TimeFormat.MinuteToClock | sistema.py:73-80 | the reading starts with HH:MM, where HH = (m mod 1440) div 60 < 24 and MM = m mod 60; it is exactly five characters when m < 1440, and otherwise continues with " (+", the day count m div 1440 in digits with no leading zero, and "d)" |
| TimeFormat.ClockRoundTrip | sistema.py:73-80 | a reader that accepts only HH:MM or HH:MM (+Nd) with N free of leading zeros reads a rendered minute back as its hour, minute and day offset (none unless m div 1440 > 0); for m ≥ 0 this recovers m |
| TimeFormat.ClockExamples | sistema.py:73-80 | 0 → "00:00", 1439 → "23:59", 1440 → "00:00 (+1d)", 1500 → "01:00 (+1d)"; "00:00 (+01d)" is not read as a clock reading |
| Ledger.ApplyEvent | sistema.py:83-95 | `begin_service` moves the counter by the one start it counts and `end_service` by the one end it counts, with no guard against going below zero |
| Ledger.ActiveAfter | sistema.py:83-102 | the counter after a trace of starts and ends is the number of starts minus the number of ends |
| Ledger.ActiveIsOpenTrips | sistema.py:83-95 | on a log where each client's starts and ends alternate beginning with a start, the counter equals the number of clients with a trip open |
| Ledger.ActiveNeverNegative | sistema.py:83-95 | on such a log no prefix has more ends than starts, so the counter is never negative at any point |
| Ledger.TripLeavesCountUnchanged | cliente.py:49-73 | a trip's start and end leave the counter as if the trip had not happened, whatever came before, whatever other clients' starts and ends fell between them, and whatever followed |
| Ledger.ExitOnlyAfterDayEnd | main.py:78-83 | replaying such a log, the driver exits exactly when the day is closed at 24:00 and no client has a trip open; it never exits while a trip is open or before 24:00 |
| Dispatch.BestAmong | sistema.py:129-141 | the scan finds nothing exactly when no taxi is free within radius; otherwise it yields the first candidate that no candidate precedes in (key, −average, id) order |
| Dispatch.AssignTaxi | sistema.py:121-146 | no candidate gives no taxi and an unchanged fleet; otherwise the chosen taxi was free, lies within 2.0, is a minimum of (key, −average, id) and the earliest such; it becomes busy and bound to the client, its other fields stay, every other taxi is unchanged, and free ⇔ no client is preserved |
| Dispatch.FinishTrip | sistema.py:149-166 | the taxi becomes free with no client, services and rating count grow by one, the fare and rating are added, its position is the destination, nothing else changes, and free ⇔ no client and ratings in 1..5 are preserved |
| Dispatch.PrecedesTotalOnDistinctIds | sistema.py:135-141 | of two taxis with different ids exactly one precedes the other in the sort order |
| Dispatch.BestIsUnique | sistema.py:135-141 | with distinct ids only one candidate is preceded by no candidate, so the choice is determined |
| Dispatch.ChosenIsNearest | sistema.py:133-141 | when the key preserves the order of distances, the chosen taxi is a nearest candidate |
| Dispatch.RatingBreaksDistanceTie | sistema.py:130-141 | of two free taxis at equal distance the one averaging 5 beats the one averaging 4, and a nearer busy taxi is skipped |
| Dispatch.IdBreaksRatingTie | sistema.py:135-141 | at equal distance and equal average the lower id is chosen, even when it comes later in the fleet |
| Dispatch.Fare | sistema.py:179-181 | the fare before rounding lies between base fee + 1.8 × distance and base fee + 3.2 × distance |
| Dispatch.FareMonotone | sistema.py:179-181 | the fare is at least the base fee and does not decrease with distance for a fixed rate |
| Status.FreeIds | sistema.py:108 | the free list has at most one entry per taxi; with `FreeIdsAreExactlyFree` and `FreeIdsFollowFleetOrder` it is exactly the free taxis' ids in fleet order |
| Status.BusyLabels | sistema.py:109-115 | the busy list has at most one entry per taxi; with `BusyLabelsAreExactlyBusy` and `BusyLabelsFollowFleetOrder` it is exactly the busy taxis' labels in fleet order |
| Status.FreeIdsAreExactlyFree | sistema.py:108 | the free list holds the id of every free taxi and only ids of free taxis |
| Status.BusyLabelsAreExactlyBusy | sistema.py:109-115 | the busy list holds a label (id, client) for every busy taxi and only for busy taxis |
| Status.SnapshotCoversFleet | sistema.py:105-116 | the free and busy lists together have one entry per taxi |
| Status.FreeIdsFollowFleetOrder | unietaxi.py:82-84 | the free list keeps fleet order: free taxis of a front part of the fleet are listed before those of the rest |
| Status.BusyLabelsFollowFleetOrder | unietaxi.py:85-89 | the busy list keeps fleet order in the same way |
| Status.BusyLabelsShowClients | sistema.py:111-115 | on a fleet where free ⇔ no client, every busy label carries its client |
| Status.StatusSnapshot | sistema.py:105-118 | the snapshot has one entry per taxi, free taxis in the first list and busy ones in the second |
| Status.ShowTaxiStatus | unietaxi.py:76-91 | the single-pass listing equals the two-list snapshot, order included |
| Summary.FinalSummary | main.py:35-53 | an empty fleet has no winners and a non-empty one has both; the top earner has earnings ≥ every taxi's and beats every earlier taxi strictly, and likewise for the top average rating |
| Summary.WinnersUnique | unietaxi.py:295-298 | at most one taxi is the first top earner and at most one the first top rated |
| Simulation.InitialSystem | sistema.py:31-36 | the day starts with the clock at 00:00 and the day open and no trip in service, as the system's constructor (and unietaxi.py:49-51) sets them, with the start-up fleet of main.py:60-63 (unietaxi.py:316-328): consistent, with distinct ids |
| Simulation.AssignLeavesBusyTaxis | sistema.py:129-143 | a dispatch never alters a busy taxi, so a bound taxi stays with its client |
| Simulation.TaxiStaysWithClient | sistema.py:129-166 | after a dispatch binds a taxi to a client, a later dispatch for another client never picks that taxi, and completing another taxi's trip leaves it busy with the same client |
| Simulation.ExitWhileDispatchPending | main.py:78-83 | the exit test passes with the day closed and no service started while a dispatched taxi is still bound to its client |
| Simulation.ServeTrip | cliente.py:39-73 | a whole trip with no taxi found changes nothing; otherwise the chosen taxi ends free with no client at the destination, with one more service, the fare added to its earnings, the rating added to its rating sum and one more rating counted; the trip counter returns to its value, other taxis are untouched, and the invariants hold |

## Left out

- Threads and semaphores: each locked region is one atomic step, and interleavings are not modelled beyond what `AssignLeavesBusyTaxis` and `TaxiStaysWithClient` say.
- Sleeping and wall-clock time (`sleep_minutes`, the driver's 0.1 s polling): there is no real time in the model.
- Random draws (positions, trip and wait lengths, ratings, per-km rate) are parameters.
- The triangular sampler `tri_int` is not modelled.
- Console input (`read_positive_int`) and all printing are not modelled.
- The status lists hold labels as data; the rendered text `Taxi-N(Cliente-M)` is not modelled.
- Floating point is modelled as exact reals. `math.dist`'s square root and `round(d, 6)` are folded into the caller-given `key` of the squared distance. The fare's `round(…, 2)` is not modelled: `Fare` is the value before rounding.
- Dispatch.AssignTaxi: the sort key is `key` of the squared distance. Exact-real distance stands in for the float computation at the 2.0 boundary.
- Dispatch.AssignTaxi: with duplicate ids, two different taxis can tie on (key, −average, id). Python would then compare the taxi objects themselves and raise a TypeError. The model instead takes the earlier one, as a stable sort would. Every fleet the program builds has distinct ids (`InitialFleet`), and dispatch and trip completion never change an id.
- Dispatch.Fare: states the fare before rounding to cents, because the model has no float rounding.
- Clock: the code stops the minute at 1440. Trip end times may pass 24:00 (`TripEnd`), but the clock itself never does.
- Ledger.ActiveAfter: the counter is an unguarded integer, as in the code. Non-negativity is proved for logs where each client alternates start and end (`Alternating`), which is how every client thread runs its trips (cliente.py:49-73).
- The window between a client's admission gate (cliente.py:31-32) and its `begin_service` (cliente.py:49) is not covered by the counter. A client given a taxi there is invisible to the exit test, and since client threads are daemon threads (cliente.py:22) its trip is cut off when the driver exits. `ExitWhileDispatchPending` shows the exit test passing with such a taxi bound. `ServeTrip` and the `Ledger` log put no gap between dispatch and the start of service, so the model does not promise that every dispatched trip completes.
- The client thread's loop (initial offset, retry after a miss, waiting between trips) is not modelled as a state machine. Its admission gate, trip duration and one whole trip are modelled (`MayStartTrip`, `TripDuration`, `TripEnd`, `ServeTrip`).
- `config.py` holds constants only; 1440 minutes, radius 2.0, base fee 2.50 and rate range 1.8–3.2 are Dafny constants.
