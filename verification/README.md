# Verified model of the spa booking and payment back end

This project models the parts of the repository that decide something hard — who is placed where, which rows a booking
has, what a payment record says, which requests are executed or replayed — and proves what they guarantee over all
inputs, all runs and all interleavings. `dafny verify dfyconfig.toml` checks all of it.

| file | what it models |
|---|---|
| `AppointmentFile.dfy` | reading the importer's CSV: appointment lines under date, status and branch headers |
| `Ledgers.dfy`, `Allocator.dfy` | the CSV importer's placement of rows into rooms and therapists, against a mutable ledger |
| `AllocationSafety.dfy`, `AllocationResults.dfy`, `AllocationMeaning.dfy`, `AllocationFairness.dfy` | what every importer run keeps, exactly when a row is placed, in which room and by whose answer, how evenly therapists are booked |
| `CacheTable.dfy`, `CacheResults.dfy`, `CacheColumns.dfy`, `Reimport.dfy` | the appointment-cache table: availability question, reconciler, convergence, every column written, and importing a file twice |
| `Text.dfy`, `Attribution.dfy`, `AttributionRules.dfy`, `AttributionResults.dfy` | the payment attribution rewrite, its documented rules in stored labels, and its fixed points |
| `RateLimiter.dfy` | the counter-with-expiry rate limiter |
| `Idempotency.dfy` | the read, execute, store idempotency protocol, interleaved |
| `Outbox.dfy`, `OutboxResults.dfy`, `OutboxFate.dfy` | reliable posting of one booking's requests, with relays, leases and lost acknowledgements: their order, and what becomes of each |
| `Repair.dfy`, `RepairResults.dfy` | the voucher repair script and the payment endpoints it calls, crashing anywhere |
| `Lockout.dfy` | the gift code attempt limiter |
| `Seqs.dfy` | filtering, and Python's stable `sorted` |

Code that changes state in place is a class with methods. Each method is proved equal to a step or a reference function,
and the theorems are about every sequence of those steps. The ledger's `log` and the protocols' `state`/`world` are ghost
histories: the code does not keep them.

## Findings

Places where a natural reading of the code, or its own documentation, is not what the code does. The model follows the
code; each has a lemma that gives the exact condition.

- The admission test counts every slot that overlaps anywhere, so it is stricter than occupancy at an instant. It is
  sound, and it is exact for every capacity iff the latest start among the candidate and the slots overlapping it comes
  before their earliest end (`TestIsExactIff`; `LoadTestIsConservative` shows a refusal with a seat always left).
- The importer's header says re-runs are idempotent. For an ordinary booking the cache rows stay as they are iff the
  row's later distinct services add no minutes (`OrdinaryReimportUnchangedIff`): the first call writes the sum of the
  durations, the second the duration of the first service alone (`TwoServicesAreRewritten`).
  `DualReimportUnchangedIff` gives the condition for a dual Japanese booking; as its two rooms go to different therapists
  it is never met (`DualReimportChanges`).
- The availability query looks at one calendar date, so rows of other dates that reach into the slot are missed, for
  therapists (`YesKeepsTherapistsIff`, `MidnightRowIsMissed`) and rooms (`YesKeepsRoomsIff`, `MidnightRoomIsOverbooked`).
- One application of `apply_attribution` is not always a fixed point. A second one changes the record exactly when
  nothing in the incoming record names a provider and something names a link method (`SecondNeededIff`); two always
  suffice.
- The rate limiter is documented as a sliding window. It counts a burst, rejected requests included, and only agrees
  with a sliding window while the burst is younger than the window (`AgreesWithSlidingWindowIff`,
  `SteadyRequestsAreRejected`).
- An idempotency key does not stop concurrent requests. A handler starts iff no execution under the key was stored
  within the TTL (`HandlerStartsIff`), so two overlapping requests both execute (`ConcurrentRequestsBothExecute`).
- Outbox order holds in all runs exactly when the pending check cannot fail, each claimed row is replayed before its
  90-second lease ends, and the result is written back before it ends; none of the three is enforced by the code
  (`AlwaysInOrderIff`, with a failing run for each).
- A clean repair run leaves a payment without an invoice number when it creates the payment and the invoice name does
  not have ushanr's format; a second run repairs that (`CleanRunSettlesIff`, `FabricatedNumberNeedsTwoRuns`).

## Assumptions

- Room and therapist ids are unique within the lists of a row; slots are minutes. ushauth and the booking service are
  arbitrary oracles. An answer may depend on the room, the listed therapists and the first therapist of a pair under
  trial; with unique ids no question so told apart is asked twice while one row is being placed, so any answers are
  covered.
- The stores are up. A Redis counter asked for after exactly its expiry time has expired. Request bodies are compared by
  hash, and hashes of different bodies differ.
- A POST that times out is applied before the client gives up, or never. Outbox rows of one booking have different
  creation times. Calls for one booking are issued one at a time.
- ushanr's from-source endpoint returns the existing invoice of a source document, as its callers rely on; ushanr is not
  part of this repository. Repair runs for one voucher do not overlap.
- Lower-casing, white space and digits are those of ASCII. New row ids are numbers the table has not used.

## Model

| member | source | states |
|---|---|---|
| AppointmentFile.ParseCsv | scripts/import_appointments_csv.py:128-172 | the loop over the file computes the line-by-line reading, stopping at the first error |
| AppointmentFile.ParsedFile | scripts/import_appointments_csv.py:132-172 | one row per appointment line in file order, each with the nearest preceding date, status and branch |
| AppointmentFile.LastIsNearest | scripts/import_appointments_csv.py:132-172 | the header taken is the last of its kind before the line |
| AppointmentFile.FailsAtFirstFault | scripts/import_appointments_csv.py:141-164 | reading fails iff some line is a bad date, an unreadable appointment, or an appointment before any date; the first such line is reported |
| AppointmentFile.ParseConcat | scripts/import_appointments_csv.py:128-172 | parsing a concatenation is parsing the first part, then resuming from its headers and rows |
| AppointmentFile.AppointmentIff | scripts/import_appointments_csv.py:142-142 | a line is an appointment iff its first cell, stripped, is an A followed by digits |
| AppointmentFile.FieldsAreReadStripped | scripts/import_appointments_csv.py:133-136 | its fields are read from the stripped cells, padded with blanks to fourteen |
| AppointmentFile.StatusLines | scripts/import_appointments_csv.py:85-85 | each of the seven status words, in any case, is a status header |
| AppointmentFile.BranchLines | scripts/import_appointments_csv.py:167-171 | a name is a branch header iff it stands alone with a count in the last column and is no total line |
| Ledgers.OverlapsBoundCovering | scripts/import_appointments_csv.py:1311-1324 | the number of slots overlapping a candidate bounds the occupancy at every instant the candidate covers |
| Ledgers.OverlapIffSharedInstant | scripts/import_appointments_csv.py:1311-1312 | two slots overlap iff they have an instant in common |
| Ledgers.NeighboursDoNotMeet | scripts/import_appointments_csv.py:1311-1312 | a slot ending when another starts shares nothing with it |
| Ledgers.CoveringCounts | scripts/import_appointments_csv.py:1323-1324 | occupancy is the number of slots running at the instant |
| Ledgers.Ledger.TherapistBusy | scripts/import_appointments_csv.py:1320-1321 | true iff some earlier entry of the run gave this therapist an overlapping slot |
| Ledgers.Ledger.Add | scripts/import_appointments_csv.py:1329-1331 | the two in-place maps stay the therapist and room views of the run's history extended by one placement |
| Ledgers.Ledger.MarkBusy | scripts/import_appointments_csv.py:2554-2560 | after a double-booking error the therapist is taken and no room is |
| Seqs.SortStable | scripts/import_appointments_csv.py:1582-1587 | sorting by booked minutes keeps candidates with equal minutes in their original order |
| Allocator.SearchPair | scripts/import_appointments_csv.py:1595-1616 | the nested loops compute the first accepted candidate that has a later partner accepted beside it, with its nearest one |
| Allocator.PickTwoTherapists | scripts/import_appointments_csv.py:1565-1616 | the pair chosen is the reference choice over the run's history, for the strict and the overriding pass |
| Allocator.PickOneTherapist | scripts/import_appointments_csv.py:2359-2380 | the retry loop ends and yields the reference choice, dropping the head while ushauth names somebody not listed |
| Allocator.PickJapaneseRooms | scripts/import_appointments_csv.py:1641-1656 | the early-stopping loop and its relaxed fallback are the first two admitted rooms |
| Allocator.TryEachRoom | scripts/import_appointments_csv.py:2334-2384 | the room loop leaves the ledger and the verdict of trying rooms in order until one places the row |
| Allocator.Place | scripts/import_appointments_csv.py:2050-2334 | strict pass then relaxed pass, the relaxed one by rising load, on the ledger as the strict pass left it |
| Allocator.PlaceEveryRow | scripts/import_appointments_csv.py:2050-2560 | the whole run over a mutable ledger produces the history that the theorems below speak of |
| AllocationSafety.EveryRunIsSafe | scripts/import_appointments_csv.py:2050-2560 | in every run, at every instant, room occupancy is at most capacity plus the running units placed without the test; and a therapist's overlap is always explained by the later slot being an untested couple or dual placement |
| AllocationSafety.StrictRunNeverOverbooks | scripts/import_appointments_csv.py:2336-2339 | a run that never relaxed exceeds no room's capacity at any instant |
| AllocationSafety.CountIsOccupancyIff | scripts/import_appointments_csv.py:1323-1324 | at an instant of the slot the load count is the occupancy iff every overlapping slot is running then |
| AllocationSafety.TestIsExactIff | scripts/import_appointments_csv.py:2336-2339 | the test decides as pointwise occupancy would, for all capacities and units, iff the latest overlapping start precedes the earliest overlapping end |
| AllocationSafety.LoadTestIsConservative | scripts/import_appointments_csv.py:1323-1324 | a slot the test refuses although a seat is free at every instant |
| AllocationSafety.PairIsDistinct | scripts/import_appointments_csv.py:1581-1616 | the two therapists differ, come from the pool and, unless overriding, are both free for the slot |
| AllocationResults.RowIsAllOrNothing | scripts/import_appointments_csv.py:2050-2560 | a row is placed whole or not at all, only in its own rooms, with its own therapists, for its own slot |
| AllocationResults.SinglesNeverOverlap | scripts/import_appointments_csv.py:2359-2384 | runs of single rows never give a therapist two overlapping slots, relaxed rows and double-booking marks included |
| AllocationResults.SinglePlacedIff | scripts/import_appointments_csv.py:2357-2384 | without conflicts a single row is placed iff some pool therapist is free for the slot |
| AllocationResults.CouplePlacedIff | scripts/import_appointments_csv.py:2341-2356 | without conflicts a couple row with a couple room is placed iff its pool has two therapists |
| AllocationResults.JapanesePlacedIff | scripts/import_appointments_csv.py:1641-1675 | without conflicts a dual row is placed iff there are two Japanese rooms and two therapists |
| AllocationResults.RelaxedOnlyWhenStrictFails | scripts/import_appointments_csv.py:2050-2053 | without conflicts, for all three shapes: the placement is a tested one iff the strict search finds a staffed room, or two for a dual row |
| AllocationResults.WhichPass | scripts/import_appointments_csv.py:2050-2053 | whatever conflicts, a placed row was tested iff the strict pass placed it |
| AllocationResults.FirstPairIsFirstTwoAccepted | scripts/import_appointments_csv.py:1595-1616 | with one room and answers that depend on the therapist asked about only, the first two accepted candidates in least-minutes order, and none iff there are fewer than two |
| AllocationResults.StrictPairIsFirstTwo | scripts/import_appointments_csv.py:1581-1616 | over the ledger: the strict couple picker returns the two least booked of the free pool therapists that ushauth accepts, and none iff there are fewer than two |
| AllocationResults.FirstPairIsLeast | scripts/import_appointments_csv.py:1676-1702 | whatever is answered, the lexicographically least index-ordered fitting pair, and none iff there is no such pair |
| AllocationMeaning.SinglePlacedIffFree | scripts/import_appointments_csv.py:2357-2384 | a single row is placed iff some pool therapist has nothing at any instant of its slot |
| AllocationMeaning.NeighboursAreBothPlaced | scripts/import_appointments_csv.py:1311-1312 | of two rows back to back the second still gets the one therapist and room |
| AllocationMeaning.StrictRunKeepsSeats | scripts/import_appointments_csv.py:2335-2339 | a run that never relaxed never has more placements in a room at an instant than seats, an empty capacity being one |
| AllocationMeaning.StrictAdmitsIff | scripts/import_appointments_csv.py:2336-2339 | the strict test admits a room iff the placements meeting the slot leave the seats asked for |
| AllocationMeaning.PlacedWhereSuited | scripts/import_appointments_csv.py:2014-2045 | whatever a row adds is in a room of the right kind, for a therapist of its pool and its own slot |
| AllocationMeaning.CoupleRowPlacedIff | scripts/import_appointments_csv.py:2030-2045 | a couple row is placed iff it has a room for two and two therapists |
| AllocationMeaning.DualRowPlacedIff | scripts/import_appointments_csv.py:2008-2029 | a dual row is placed iff it has two rooms named Japanese and two therapists |
| AllocationMeaning.DualTestedIff | scripts/import_appointments_csv.py:1641-1658 | the strict pass places a dual row iff its first two Japanese rooms with a seat left have a pair accepted for them, and then in those two rooms |
| AllocationMeaning.AskAllIff | scripts/import_appointments_csv.py:2364-2380 | the therapist taken is the one named by the first answer that names a listed one, unless a no comes first |
| AllocationMeaning.TestedPlacementIsAccepted | scripts/import_appointments_csv.py:1595-1616 | a strict placement was accepted by ushauth, each therapist for the very room it got |
| AllocationMeaning.SingleConflictTakesTherapist | scripts/import_appointments_csv.py:2554-2560 | a refused booking leaves its therapist taken at the slot and its room as it was |
| AllocationMeaning.PairConflictTakesBoth | scripts/import_appointments_csv.py:2241-2245 | a refused pair leaves both therapists taken and no room |
| AllocationMeaning.StrictTakesFirstRoom | scripts/import_appointments_csv.py:2328-2356 | a strict placement is in the first suiting room that has a seat and therapists |
| AllocationMeaning.RelaxedTakesLeastLoaded | scripts/import_appointments_csv.py:2329-2333 | a relaxed placement is in a suiting room that fewest placements meet |
| AllocationFairness.LeastKeepsBalance | scripts/import_appointments_csv.py:1326-1327 | giving a slot to the least booked one or two therapists keeps the spread within the longest slot |
| AllocationFairness.FreeAreTheRest | scripts/import_appointments_csv.py:2359-2362 | in the middle of a row, the free candidates in least-minutes order are the rest of the order the row started with |
| AllocationFairness.RowIsFair | scripts/import_appointments_csv.py:2050-2560 | one row, with every mark it leaves in both passes, keeps the spread within the longest slot |
| AllocationFairness.RunStaysBalanced | scripts/import_appointments_csv.py:2050-2560 | if ushauth accepts the first candidate it is asked about, then over rows with non-overlapping slots and one pool any two therapists' booked minutes differ by at most the longest slot, double-booking marks and retries included |
| CacheTable.AppointmentCache.CheckAvailability | scripts/import_appointments_csv.py:636-695 | each of the four answers exactly characterised; a yes names the first listed therapist with no overlapping active row of that date |
| CacheTable.AppointmentCache.UpsertPrimary | scripts/import_appointments_csv.py:785-844 | leaves one primary row with the call's values and touches nothing else |
| CacheTable.AppointmentCache.ReconcileExtras | scripts/import_appointments_csv.py:846-931 | the non-secondary rows become the target set, one per distinct wanted room |
| CacheTable.AppointmentCache.ReconcileSecondary | scripts/import_appointments_csv.py:933-1028 | one secondary row iff a second therapist is given, keeping the room columns of an existing row |
| CacheTable.AppointmentCache.SyncAppointmentCache | scripts/import_appointments_csv.py:697-1028 | the whole call: the table of any start becomes the target for this booking and is unchanged elsewhere; the forced form adds exactly one primary row |
| CacheTable.NewRoomsCover | scripts/import_appointments_csv.py:849-868 | the extra rooms are exactly the rooms named by the services and not by the booking |
| CacheResults.SyncReachesTarget | scripts/import_appointments_csv.py:785-1028 | from any table, a non-forced sync depends on its arguments only, up to row ids and timestamps |
| CacheResults.SyncReachesTargetIff | scripts/import_appointments_csv.py:941-1028 | with one secondary row on file, that holds iff no second therapist is given or the row has the shape this code inserts |
| CacheResults.LastSyncWins | scripts/import_appointments_csv.py:697-1028 | the last of two syncs decides; the same sync twice changes nothing |
| CacheResults.OneRowPerWantedRoom | scripts/import_appointments_csv.py:846-931 | exactly one non-secondary row per wanted room and none for any other room |
| Reimport.OrdinaryReimportUnchangedIff | scripts/import_appointments_csv.py:1959-1983 | importing a row again leaves an ordinary booking's rows as they are iff the row's later distinct services add no minutes |
| Reimport.ImportedColumns | scripts/import_appointments_csv.py:2575-2597 | what either call leaves in the booking's room: confirmed, payment pending, as long as all its services together |
| Reimport.ImportedRowBlocks | scripts/import_appointments_csv.py:2590-2593 | an imported row stands in the way of a slot iff the visit and the slot share an instant |
| Reimport.ImportedRooms | scripts/import_appointments_csv.py:2595-2595 | one row in the booking's room and in the rooms of its services when it has several, none elsewhere |
| Reimport.ImportTwice | scripts/import_appointments_csv.py:2560-2599 | the importer's own two calls for one row, on any table: the rows after each, and stable iff the row has a single distinct service |
| Reimport.DurationDecides | scripts/import_appointments_csv.py:2513-2513 | calls that differ at most in the duration have one target iff they do not differ |
| Reimport.TwoServicesAreRewritten | scripts/import_appointments_csv.py:1976-1976 | services of 60 and 30 minutes: every primary row says 90 after the first import and 60 after the second |
| Reimport.MissingDurationIsAnHour | scripts/import_appointments_csv.py:1863-1863 | a service without a duration counts as an hour in both imports |
| Reimport.DualReimportUnchangedIff | scripts/import_appointments_csv.py:1959-1983 | a dual booking's rows survive a further sync unchanged iff it names no second therapist and its target is the first target plus the row of room two |
| Reimport.DualReimportChanges | scripts/import_appointments_csv.py:1959-1983 | which never happens when the rooms have different therapists, nor when the call names a second therapist |
| Reimport.ImportDualTwice | scripts/import_appointments_csv.py:2256-2310 | the importer's own calls over two runs, on any table: both rooms written, then changed by the second run, other bookings untouched |
| Reimport.ReimportOccupiesRoomTwoIff | scripts/import_appointments_csv.py:1959-1983 | room two is occupied after that sync iff the call names it, and then by the call's therapist |
| Reimport.ReimportDropsRoomTwo | scripts/import_appointments_csv.py:1959-1983 | a sync that does not name room two changes the rows of a dual booking |
| CacheResults.YesKeepsTherapistsIff | scripts/import_appointments_csv.py:678-693 | a yes followed by the sync keeps therapists exclusive iff no active row of that therapist dated otherwise reaches into the slot |
| CacheResults.MidnightRowIsMissed | scripts/import_appointments_csv.py:678-693 | a row from before midnight double-books a slot just after it |
| CacheResults.YesKeepsRoomsIff | scripts/import_appointments_csv.py:663-679 | a yes followed by the sync keeps room capacity iff the rows of other dates leave a seat at every instant of the slot |
| CacheResults.MidnightRoomIsOverbooked | scripts/import_appointments_csv.py:663-679 | a one-seat room is overbooked just after midnight |
| CacheResults.YesThenSyncIsSafe | scripts/import_appointments_csv.py:636-695 | inside one local date a yes followed by the sync keeps therapist exclusivity and room capacity at every instant |
| CacheColumns.OwnRoomColumns | scripts/import_appointments_csv.py:785-844 | after a sync the row in the booking's own room carries the call's room, service, therapist, date and common values |
| CacheColumns.OtherRoomColumns | scripts/import_appointments_csv.py:853-931 | the row in any other room carries the names and service of the first entry naming that room, the call's where the entry has none |
| CacheColumns.EachRoomItsService | scripts/import_appointments_csv.py:861-866 | of two services in two rooms each room's row names its own service |
| CacheColumns.SecondaryColumns | scripts/import_appointments_csv.py:933-1020 | every column of the second therapist's row, new or kept |
| CacheColumns.ForcedColumns | scripts/import_appointments_csv.py:785-787 | the forced row carries the call's values and the rows there before stay |
| CacheColumns.RoomHitsIff | scripts/import_appointments_csv.py:663-677 | the room query counts the room's blocking rows of that date that share an instant with the slot |
| CacheColumns.TherapistHitsIff | scripts/import_appointments_csv.py:681-692 | the same for the therapist query |
| CacheColumns.BlockingStatuses | scripts/import_appointments_csv.py:668-668 | which statuses block and which do not |
| CacheColumns.OfferIfNothingBlocks | scripts/import_appointments_csv.py:661-693 | a room and therapist with nothing at any instant of the slot are offered |
| Text.ContainsInJoin | app/common/payment_attribution.py:138-138 | a space-free word occurs in the joined text iff it occurs in one of its parts |
| Text.StripCuts | app/common/payment_attribution.py:59-59 | stripping cuts white space off both ends and nothing else |
| Text.SqueezeConcat | app/common/payment_attribution.py:59-59 | comparison forms are taken character by character |
| Attribution.Walk | app/common/payment_attribution.py:109-124 | the recursive walk appends exactly the reachable leaves, in order |
| Attribution.TextMentions | app/common/payment_attribution.py:156-163 | a keyword test on the flattened text answers whether any source mentions the keyword |
| Attribution.NormaliseMethod | app/common/payment_attribution.py:141-178 | the answer follows the precedence apple, deema, boubyan, voucher, then the provider rule, in terms of what the sources mention |
| Attribution.PaymentRecord.ApplyAttribution | app/common/payment_attribution.py:192-239 | the field-by-field rewrite computes the reference rewrite of the whole record |
| Attribution.MethodLabelIsCanonical | app/common/payment_attribution.py:242-243 | every canonical method label is recognised as itself |
| Attribution.ProviderLabelIsCanonical | app/common/payment_attribution.py:82-95 | every canonical provider label is recognised as itself |
| AttributionResults.LeavesReach | app/common/payment_attribution.py:109-124 | a string is collected iff some path of whitelisted keys within the depth cut ends in it |
| AttributionResults.ResponseMentionsIff | app/common/payment_attribution.py:101-138 | a keyword is in the text of a response iff some reachable string leaf contains it |
| AttributionResults.OneApplicationIsCanonical | app/common/payment_attribution.py:192-239 | fields are canonical or null; a gift voucher has no provider; a null method has no provider, or myfatoorah on an unpaid record without a card word |
| AttributionResults.MethodSettlesAtOnce | app/common/payment_attribution.py:218-231 | the method never changes after the first application |
| AttributionResults.OneIsNotEnoughIff | app/common/payment_attribution.py:202-234 | a second application changes the record iff the first left a link method with a null provider |
| AttributionResults.SecondNeededIff | app/common/payment_attribution.py:202-234 | which incoming records need a second application: provider label unknown, no provider hint in gateway or method, and a link method named by the label or the sources |
| AttributionResults.TwoApplicationsSuffice | app/common/payment_attribution.py:192-239 | the result of two applications is a fixed point, for every record |
| AttributionResults.DeemaOnlyInPaymentData | app/common/payment_attribution.py:207-216 | a record whose provider arrives only with the second application |
| AttributionRules.WordsDecide | app/common/payment_attribution.py:156-164 | an unclear method becomes apple_pay, deema_link, boubyan_link or gift_voucher by the first word in that order found on the record; a voucher has no provider |
| AttributionRules.ProviderDecides | app/common/payment_attribution.py:166-178 | without such a word tap gives deema_link, boubyan boubyan_link, knet_pos knet_card, and myfatoorah knet_card iff a card word or a paid status confirms it |
| AttributionRules.DeskChoices | app/common/payment_attribution.py:17-22 | the four choices of the staff are stored as the documentation says |
| AttributionRules.HintsDecide | app/common/payment_attribution.py:206-216 | with an unclear label the provider is boubyan, else tap, else NULL, as gateway or method mention Boubyan or Deema |
| AttributionRules.VagueLabels | app/common/payment_attribution.py:23-25 | labels that describe no payment are stored as NULL |
| AttributionRules.InvoiceTransactionsAreRead | app/common/payment_attribution.py:104-105 | MyFatoorah's InvoiceTransactions[].PaymentGateway is read, a customer's name is not |
| AttributionRules.JsonTextIsDecoded | app/common/payment_attribution.py:126-137 | a text that opens like JSON and decodes counts by its reachable leaves, any other text as itself |
| AttributionRules.ThroughColumn | app/common/payment_attribution.py:64-77 | exactly which labels are stored as which channel |
| AttributionRules.ProviderLabels | app/common/payment_attribution.py:82-95 | which labels are stored as which provider |
| AttributionRules.MethodLabels | app/common/payment_attribution.py:218-222 | a spelling of one of the five methods is kept |
| RateLimiter.RateLimitMiddleware.Dispatch | app/core/middleware.py:226-266 | the counter is the request's position in its burst; admitted iff that is within the limit, with the remaining quota |
| RateLimiter.PositionIsRankInBurst | app/core/middleware.py:227-231 | the position counts requests since the last gap of a full window |
| RateLimiter.WindowAdmitsAtMostLimit | app/core/middleware.py:237-261 | any half-open window of the configured length admits at most the limit |
| RateLimiter.AdmittedAfterSilence | app/core/middleware.py:227-231 | after a window of silence the next request is admitted |
| RateLimiter.RejectedUntilSilence | app/core/middleware.py:227-261 | a rejected key stays rejected until a full window passes without any request |
| RateLimiter.AgreesWithSlidingWindowIff | app/core/middleware.py:172-172 | agreement with a true sliding window, for every limit, iff the burst began within the last window |
| RateLimiter.SteadyRequestsAreRejected | app/core/middleware.py:227-261 | requests at 0, 30 and 60 with window 60 and limit 2: the third is rejected although a sliding window holds two |
| Idempotency.IdempotencyMiddleware.LookUp | app/core/middleware.py:322-348 | a live entry with the same hash is replayed, one with another hash is a conflict, otherwise the handler runs |
| Idempotency.IdempotencyMiddleware.StoreResponse | app/core/middleware.py:353-374 | a 2xx JSON response is stored with the full TTL, any other is not |
| Idempotency.StoredExecutionsOverlapOrExpire | app/core/middleware.py:322-374 | in every interleaving two stored executions of one key overlap, or the later one read after the earlier entry's TTL |
| Idempotency.RepliesAreJustified | app/core/middleware.py:328-348 | every replay repeats the status and body of an unexpired execution with the same key and hash; every conflict has one with another hash |
| Idempotency.AnsweredFromStoreWithinTtl | app/core/middleware.py:328-348 | while an execution's TTL runs no request under its key reaches a handler |
| Idempotency.HandlerStartsIff | app/core/middleware.py:322-351 | in every run a look-up reaches the handler iff no execution under its key was stored within the TTL |
| Idempotency.ConcurrentRequestsBothExecute | app/core/middleware.py:322-351 | two overlapping requests with one key both execute and both store |
| Idempotency.Only2xxIsReplayed | app/core/middleware.py:353-374 | in every run everything stored and everything replayed has a 2xx status |
| Idempotency.StoredIff2xxJson | app/core/middleware.py:353-374 | a response is stored iff it is 2xx with a JSON body, with its own status and body |
| Idempotency.FailuresAreRetried | app/core/middleware.py:353-374 | a key whose handlers only ever failed always reaches a handler |
| Outbox.CacheOutbox.PostReliable | app/integrations/ushauth_client.py:160-190 | an uninterrupted call is one issue followed by queueing behind pending rows, or by a POST and queueing of a retryable failure, which the caller still sees |
| Outbox.CacheOutbox.ClaimDue | app/booking/application/cache_outbox_relay.py:87-126 | the due pending row with no older pending row is leased for 90 seconds; none is claimed iff the oldest is not due |
| Outbox.CacheOutbox.ProcessOutboxOnce | app/booking/application/cache_outbox_relay.py:138-185 | one relay pass is a claim, a replay and a write-back of the oldest due row |
| OutboxResults.EveryTimelyRunIsOrderly | app/booking/application/cache_outbox_relay.py:87-126 | the protocol invariant over all interleavings of calls, relays, failures, lost acknowledgements and crashes |
| OutboxResults.AppliedInIssueOrder | app/integrations/ushauth_client.py:160-190 | requests reach ushauth in issue order once adjacent repeats are collapsed |
| OutboxResults.DirectSendOnlyWhenNothingPending | app/integrations/ushauth_client.py:176-185 | however slow the relays, a direct POST happens only while nothing older of the booking is pending |
| OutboxResults.AlwaysClearIff | app/booking/application/cache_outbox_relay.py:68-84 | that holds in all runs iff the outbox is off or the pending check cannot fail |
| OutboxResults.DirectSendFollowsAll | app/integrations/ushauth_client.py:176-187 | a direct POST comes after everything applied so far |
| OutboxResults.AlwaysInOrderIff | app/booking/application/cache_outbox_relay.py:31-85 | order is kept in all runs iff the outbox is off, or the pending check cannot fail and both replays and write-backs come within the lease |
| OutboxResults.OverrunReorders | app/booking/application/cache_outbox_relay.py:119-125 | a relay that replays at the end of its lease applies request 0 after request 1 |
| OutboxResults.LateWriteReorders | app/booking/application/cache_outbox_relay.py:129-135 | a write-back at the end of the lease reorders although every replay was in time |
| OutboxResults.BlindCheckReorders | app/booking/application/cache_outbox_relay.py:82-84 | a failed pending check applies request 1 before request 0 |
| OutboxFate.EveryRunLosesNothing | app/booking/application/cache_outbox_relay.py:138-185 | in every run each issued request is in its call, applied, pending, dead, refused or unstored, and a delivered row was applied |
| OutboxFate.GivenUpForAReason | app/booking/application/cache_outbox_relay.py:157-176 | a step that leaves a request dead, refused or unstored is a give-up, a permanent failure, a failed insert or the caller's death, for that request |
| OutboxFate.AppliedOrStillQueued | app/integrations/ushauth_client.py:160-190 | in every run without such a step for it, a request whose call returned was applied or has a pending row |
| OutboxFate.GivenUpOnlyWhenTried | app/booking/application/cache_outbox_relay.py:157-167 | in every run a relay gives a row up on a permanent failure, or after at least the maximum less one failed replays of that row |
| OutboxFate.RefusedOnlyByFinalAnswer | app/integrations/ushauth_client.py:40-49 | in every run a request is refused only after its direct POST met an answer below 500 other than 2xx and 429, or one that cannot be read |
| OutboxFate.DeadOnlyByFinalAnswer | app/booking/application/cache_outbox_relay.py:157-167 | in every run a row is dead only after a final answer to a replay, or after at least the maximum less one failed replays |
| OutboxFate.DirectCallOutcome | app/integrations/ushauth_client.py:181-190 | what a direct call comes to for every answer: applied and done, one new row, or refused |
| OutboxFate.TransientFailureIsQueued | app/integrations/ushauth_client.py:184-190 | a timeout, lost connection, 5xx or 429 leaves exactly one pending row for the request, due in ten seconds |
| OutboxFate.WriteBackOutcome | app/booking/application/cache_outbox_relay.py:154-185 | what a write-back makes of the row for every answer |
| OutboxFate.WaitsDouble | app/booking/application/cache_outbox_relay.py:39-41 | waits start at ten seconds and double up to a quarter of an hour |
| OutboxFate.CrashedRowIsClaimedAgain | app/booking/application/cache_outbox_relay.py:119-123 | a relay that dies over its row holds the row up for exactly the ninety seconds of the lease |
| Repair.VoucherRecords.PostLinkInvoice | app/api/v1/payments.py:1481-1515 | every payment of the voucher and the voucher itself carry the given number |
| Repair.VoucherRecords.PostCreatePayment | app/api/v1/payments.py:646-730 | an existing payment is updated and never duplicated; only a number in ushanr's format is stored |
| Repair.VoucherRecords.Run | scripts/repair_voucher_records.py:177-636 | the six steps with every call succeeding, failing before or after it was applied, or ending the process |
| RepairResults.NeverASecondRecord | scripts/repair_voucher_records.py:19-20 | over any sequence of failing and crashing runs payments and invoices grow at most from none to one, and nothing is withdrawn |
| RepairResults.InvoiceComesFirst | scripts/repair_voucher_records.py:304-409 | no sequence of runs records a payment before its invoice is known |
| RepairResults.DryRunsDoNotMatter | scripts/repair_voucher_records.py:152-166 | dry runs anywhere in a sequence of runs have no effect on its outcome |
| RepairResults.IneligibleIsNeverTouched | scripts/repair_voucher_records.py:287-298 | an ineligible voucher is untouched after any runs |
| RepairResults.CleanRunSettlesIff | app/api/v1/payments.py:150-169 | one run without failures leaves one payment with an invoice number iff the payment existed or the invoice name is in the trusted format |
| RepairResults.TwoCleanRunsSuffice | scripts/repair_voucher_records.py:426-479 | whatever failed in between, two runs without failures leave exactly one payment with its invoice number |
| RepairResults.FinalIffSettled | scripts/repair_voucher_records.py:452-479 | the states no further run can change are exactly those |
| RepairResults.InvoiceNumberIsStable | scripts/repair_voucher_records.py:428-450 | an invoice number once on the payment is never changed by later runs |
| RepairResults.UshanrNameSettlesAtOnce | app/api/v1/payments.py:145-147 | with a name in ushanr's format one clean run repairs a voucher that had nothing |
| RepairResults.FabricatedNumberNeedsTwoRuns | app/api/v1/payments.py:154-155 | a voucher carrying a made-up number gets its payment number-less first and linked by the second run |
| RepairResults.TrustedIff | app/api/v1/payments.py:145-147 | the trusted names are exactly PREFIX/YYYY/MM/NNNNN with the stated lengths, once stripped |
| RepairResults.PaidStatuses | scripts/repair_voucher_records.py:287-298 | a voucher in a paid status is repaired iff it carries a payment id or any payment data; pending and cancelled ones are not |
| RepairResults.KnownNumberMakesNoInvoice | scripts/repair_voucher_records.py:304-330 | a number under either key means no partner or invoice call has any effect, over any runs |
| RepairResults.FirstCleanRunWrites | scripts/repair_voucher_records.py:320-620 | all that a first clean run leaves in voucher, ushanr and payments |
| RepairResults.FailureStops | scripts/repair_voucher_records.py:363-409 | which failed calls end a run, and that a failed link does not |
| RepairResults.CreateUpdatesNewest | app/api/v1/payments.py:646-662 | an existing payment is updated in place, the newest only, by a trusted number only |
| RepairResults.LinkWrites | app/api/v1/payments.py:1481-1510 | what linking writes to payments and voucher |
| RepairResults.PickedPaymentDecides | scripts/repair_voucher_records.py:129-143 | with several payments on file the one the unordered query returns decides: all are linked iff it has no invoice number |
| Lockout.Verification.VerifySecretCode | generator3.py:155-170 | the answer and the new status, counter, lock and time stamp of one check |
| Lockout.EveryRunIsKept | generator3.py:155-170 | counter, last attempt, lock and spacing of wrong codes stay consistent in every run |
| Lockout.AtMostFiveInAnyQuarterHour | generator3.py:151-170 | counted wrong codes less than fifteen minutes apart number at most five |
| Lockout.TotalIsBounded | generator3.py:151-170 | by T after the first wrong code at most 5 + floor(T / 15 minutes) were counted |
| Lockout.BoundIsReached | generator3.py:166-169 | that bound is met with equality for every total, so it cannot be improved |
| Lockout.LockDecides | generator3.py:158-169 | the right code is refused exactly while a lock runs, a lock always ends, and after the fifth every wrong code locks again |
| Lockout.AnswerMeans | generator3.py:155-170 | only active and claimed purchases are checked, a claim needs the right code, every wrong one is counted |
| Lockout.ClaimedOnlyByCode | generator3.py:160-164 | in every run a purchase is claimed only by the right code |

## Left out

- SQL text, sessions, HTTP clients, logging, Redis wiring and the event queue: they are maps, sequences and oracles here.
- Service and branch matching of the importer (`Catalog`): similarity scores from floating-point string matching; the
  rooms, the pool, the duration and the service shape of a row are given.
- AppointmentFile.ParseCsv: decoding of single cells (dates, times, service names, quantities) is an arbitrary partial
  function; CSV quoting and the file encoding are not modelled.
- Pricing, customers, payloads and report rows of the importer; exceptions other than the double-booking error.
- CacheTable.AppointmentCache.Select: the order in which the database returns rows is a fixed unknown order per call.
- JSON decoding inside `gateway_text` is an arbitrary partial function to trees; trees hold strings, lists,
  dictionaries, null and other scalars.
- Rate limiting when Redis fails, the private-address bypass and the choice of the key.
- Idempotency when Redis fails, skipped paths and methods, and response headers.
- Other bookings in one relay batch: at most one row of a booking is claimable at a time, so the relay's per-batch
  blocking of a booking does not arise for it.
- Outbox.CacheOutbox.ProcessOutboxOnce: describes an uninterrupted pass; passes interrupted between claim, replay and
  write-back are covered by the step relation of the runs.
- Repair.VoucherRecords.PostCreatePayment: columns other than the payment number and the invoice number, and the
  payment_data keys that do not take part in a decision.
- Payment links updated by the link-invoice endpoint, and ushanr's invoice ids.
- Concurrent submissions of gift codes that read the same record before either writes it.
- The interval engine, booking and availability endpoints, and the remaining templates of the generator scripts.
