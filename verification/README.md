# Retail-media backend: a verified model

This project models the ledgers, protocols and algorithms of a retail-media backend whose correctness spans
whole runs, and proves what they promise. `dafny verify dfyconfig.toml` checks everything.

| files | what they model |
|---|---|
| `Slots`, `InventoryBooks`, `InventoryLedger`, `InventoryRuns`, `InventoryTerms`, `InventoryShares`, `InventoryRace`, `InventorySuggest` | hourly inventory slots with cached counters, bookings that are reserved, committed, released, expired and reactivated, conflict checks, reservations racing on a slot, and suggested alternatives |
| `CampaignLifecycle`, `CampaignAnswers` | the approval workflow, coupled to the reservation ledger, and what a request books |
| `SeatPeak`, `SeatLedger`, `SeatProtocol` | license seats: the exact monthly peak, enrollment, reconciliation and its drift report, and enrollment transactions that interleave under a row lock |
| `RateLimiter`, `RateGuarantee`, `RateCollection` | the token-bucket limiter, what it grants and denies, and its garbage collector, in real-valued time |
| `ManifestIds`, `DeliveryTargets`, `ManifestGeneration`, `ManifestContents`, `DeliveryConsumer` | from a campaign event to delivery manifests: target resolution, deterministic ids, generation per device, and the at-least-once consumer |
| `DeviceView` | what a device sees: entity tags, 304 replies, the cache and the assembly |
| `PopIngestion`, `PopReceipts`, `PopBatches`, `PopRace`, `PopReports` | proof-of-play: judging and recording events, batches cut or sent again, racing ingestions, billing reports |
| `RefreshSessions`, `RefreshAnswers` | refresh tokens: login, rotation, logout, revocation |
| `RuntimeSimulator`, `RuntimeRules` | the headless device runtime |
| `Common`, `Sorting` | options, results, distinctness; stable insertion sort |

Database tables are sequences or maps; a service object is a class whose methods are proved against a
specification function, and whole-run theorems are proved about that function. Another group of lemmas states the
answers and effects of each operation in the terms of the tables alone. Transactions that interleave are
step relations. Clocks, query results in arbitrary row order, failures, lost acknowledgements and random ids are
inputs of the methods. Instants are integers (microseconds), except in the rate limiter and the offline clock,
where time is real. SHA-256 is an injective constructor; signatures are an uninterpreted check.

Places where the code does something other than its own documentation or its author may expect; the model
follows the code:

- Reactivating a placement's bookings can overbook a slot, since availability is not read again
  (`ReactivationCanOverbook`). `RunCapacity` gives the exact condition; `RequestsNeverReactivate` shows that the
  approval workflow never meets the branch.
- A slot created with capacity 0 starts "available", although recomputing would say "sold_out", and stays so until
  it is booked (`StatusIsTrueExactly`, `WrongStatusIsReached`).
- The over-demand warning of a conflict check, meant for requests that may proceed, never comes without a blocking
  conflict (`DetectConflicts`).
- "Later" suggestions are offered only if the requested hours themselves could be satisfied
  (`LaterNeedsTheOriginal`).
- The replay branch of refresh, which would revoke a token's family, cannot be reached, because the lookup leaves
  rotated sessions out; a replay is refused and nothing is revoked (`ReplayChangesNothing`). The family update
  behind it also names a column that sessions do not have.
- Rotated sessions count against the session limit and can push a live one out (`LoginEndsExactly`,
  `CrowdingOutIsReached`).
- The refresh endpoint answers an inactive user with an error, which rolls the revocation of the session back; the
  run theorems hold for calls committed or rolled back.
- Delivering an event for a campaign without targets is not idempotent (`NoTargetsIsNotIdempotent`).
- A manifest that failed after its row was written, with an exception that leaves the transaction usable, is never
  built again, although its event is acknowledged (`FailedVisitIsAcked`, `FailedIsFinal`); after an error of the
  database the failure cannot be marked either, and the message is put back. `AckedVisitIsComplete` says exactly when
  all devices get theirs.
- Messages that are JSON but no usable event are never terminated, unlike those that are no JSON
  (`PoisonIsNeverTerminated`). A body that is no object raises once more while the first exception is logged; that,
  JSON on which the parser gives up, and a session that cannot be set up stop the consumer's loop, and what else was
  fetched stays unprocessed (`LoopEndsExactly`).
- A commit that takes effect although its reply is lost leads to a nak with a changed database (`ProcessOne`);
  `EffectivelyOnce` holds nevertheless.
- A bucket deleted too early, for a reading that lags the cleanup's, is noticed (`LateReadingIsObservable`);
  `DeletionGoesUnnoticedExactly` gives the condition. Readings are taken before the lock. The limit holds for requests
  read in an interval in whatever order they take the lock (`RunWindowBound`), but not if a reading outside the
  interval comes between (`OutsideReadingBreaksBound`), nor if readings lag cleanups by a window
  (`LateReadingsBreakBound`).
- The metadata read and the assembly of one request may see different states; the client then keeps a wrong
  payload (`DisagreeingReadsStick`), and only then (`CoherentExactly`). The emergency reason is not covered by the
  tag (`ReasonMayBeStale`).
- One event can fail the whole batch, so that events sent in one batch may be lost that two batches would keep
  (`SplitCanKeepMore`, `SplitExactly`): an event for quarantine with an unknown asset (`UnknownAssetFailsBatch`), an
  event to be written with a text longer than its column, as requests may have up to 64 characters where rows hold
  36 (`LongIdFailsBatch`, `LongSurfaceFailsBatch`), a rendering time without UTC offset (`NoOffsetFailsBatch`), a NUL
  character in a text that is looked up or written, or a time that the database cannot hold. `BatchFailsExactly` says
  when.
- Blanks beyond the width of its column are cut off a text. An event id padded so is recorded under the cut id, which
  the lookup then misses; sent again, the event is a duplicate or fails its batch, depending on the key that the
  database reports (`PaddedIdFailsReplay`, `ReplayAddsNothing`).
- In a race the violation of the rows' own unique key is raised again instead of being answered "duplicate"; both
  outcomes keep exactly-once (`PopRace`).
- Two reservations that read a slot before either writes overbook it, and the counter loses units
  (`RaceOverbooks`): the row is not locked. `RaceLosesExactly` says how many, `WriteFitsExactly` when a write fits,
  and `ExclusiveIsSafe` that one reservation after another is safe.
- A manifest whose end of validity is unreadable or has no UTC offset is applied and never expires
  (`UnreadableEndNeverExpires`, `ExpiredExactly`).
- Offline time advanced in the simulator counts twice and survives going online (`AdvancedTimeCountsTwice`,
  `OfflineTimeStays`, `OnlineMayStayExpired`).

## Model

| member | source | states |
|---|---|---|
| Slots.ExpandHours | packages/domain/repository.py:5046-5052 | the hour loop yields exactly the whole hours of the range, from the truncated start up to the truncated end |
| Slots.HourKeysDistinct | packages/domain/repository.py:5046-5052 | no hour is named twice, which is what the capacity check of a fresh reservation rests on |
| Slots.HourKeysExact | packages/domain/repository.py:5046-5052 | a slot is named if and only if its hour lies in the range |
| InventoryBooks.SettleRow | packages/domain/repository.py:5020-5032 | writing one booking row and adjusting its slot by the difference is the same as settling the whole table: cached counters follow the rows, and no clamp at zero ever fires |
| InventoryBooks.UpdateKeepsConsistent | packages/domain/repository.py:5091-5252 | committing, releasing, expiring and reactivating keep every counter equal to the sum over the bookings |
| InventoryBooks.ReactivationCapacity | packages/domain/repository.py:5020-5032 | reactivation re-reads no availability: it stays within capacity if and only if every inactive booking fits into what its slot has left |
| InventoryBooks.CeilPercentIsLeast | packages/domain/repository.py:5072-5077 | a share of voice asks for the least number of units that reaches the percentage |
| InventoryBooks.ConflictsIgnoreCreatedSlots | packages/domain/repository.py:5423-5581 | a conflict check may create slots, but creating them changes no later check |
| InventoryBooks.FreshHoldKeepsConsistent | packages/domain/repository.py:5091-5105 | a fresh reservation keeps counters equal to sums and the (placement, slot) pairs unique |
| InventoryBooks.FreshHoldKeepsCapacity | packages/domain/repository.py:5060-5105 | a fresh reservation takes only what was free, because its hours are distinct |
| InventoryLedger.Inventory.GetOrCreateSlot | packages/domain/repository.py:4584-4614 | an existing slot is returned untouched, a missing one appears empty with the default capacity and the status "available" |
| InventoryLedger.Inventory.ComputeAvailability | packages/domain/repository.py:4860-4937 | the loop's totals and conflict list are the sums and the short hours of the range; all_available holds exactly when every hour fits |
| InventorySuggest.AskedUnitsAreAsked | packages/domain/repository.py:4860-4937 | the total requested is the sum of what the request asks of each hour |
| InventorySuggest.FreeUnitsAreFreeInAll | packages/domain/repository.py:4860-4937 | the total available is the sum of what each hour has left, nothing where there is an emergency |
| InventorySuggest.WarnedExactly | packages/domain/repository.py:5423-5581 | the warning comes exactly with a percentage that asks for more units in all than are free in all, and for more than one |
| InventoryLedger.Inventory.RuleConflicts | packages/domain/repository.py:5470-5507 | exactly the applicable rules that forbid the request are reported |
| InventoryLedger.Inventory.DetectConflicts | packages/domain/repository.py:5423-5581 | the list holds exactly the blocking conflicts of the request, empty exactly when the request may proceed; the over-demand warning is raised exactly by its comparison, and never without a blocking conflict |
| InventoryLedger.Inventory.Reserve | packages/domain/repository.py:4940-5119 | refused, reusing or reactivating, or booking every hour: the new books and the answer are those of the reservation specification |
| InventoryLedger.Inventory.ReactivatePlacement | packages/domain/repository.py:5008-5044 | active bookings are only counted, released and expired ones take their units again |
| InventoryLedger.Inventory.HoldHours | packages/domain/repository.py:5046-5119 | the two phases of a fresh reservation book each hour of the range once with the units it asks for |
| InventoryLedger.Inventory.CommitForCampaign | packages/domain/repository.py:5122-5165 | exactly the reserved bookings of the campaign become committed, with the counters moved along |
| InventoryLedger.Inventory.ReleaseForCampaign | packages/domain/repository.py:5168-5213 | exactly the reserved and committed bookings of the campaign are released and give their units back |
| InventoryLedger.Inventory.ExpireReservations | packages/domain/repository.py:5216-5254 | exactly the overdue reservations expire and give their units back |
| InventoryRuns.RunConserves | packages/domain/repository.py:4940-5254 | in every run of reserve, commit, release and expire the counters are the sums over the bookings and (placement, slot) is unique |
| InventoryRuns.StepCapacity | packages/domain/repository.py:4978-5105 | one operation keeps every slot within capacity if and only if it does not reactivate bookings that no longer fit |
| InventoryRuns.RunCapacity | packages/domain/repository.py:4978-5105 | no slot is overbooked at any point of a run if and only if all its reactivations fit |
| InventoryRuns.CheckedReactivationFits | packages/domain/repository.py:4978-5032 | reactivation never overbooks when its bookings lie in the checked range with units no larger than the checked request |
| InventoryRuns.ReactivationCanOverbook | packages/domain/repository.py:5020-5032 | a concrete ledger and request on which the reactivation branch overbooks a slot |
| InventoryRuns.RefusalChangesNothing | packages/domain/repository.py:4978-4993 | a refused reservation changes no counter and no booking; at most it created empty slots |
| InventoryRuns.StatusIsTrueExactly | packages/domain/models.py:1339-1348 | in every run from empty books a slot's status column says what recompute_status would if and only if the slot has some capacity or some booking |
| InventoryRuns.WrongStatusIsReached | packages/domain/repository.py:4584-4614 | a run of one refused request that leaves a slot with a wrong status |
| InventoryTerms.RefusedExactly | packages/domain/repository.py:4940-5088 | a reservation is a bad request if and only if the request makes no sense, and is refused if and only if the surface is unknown or inactive, a rule in force speaks against it, no whole hour lies in the range, or an hour is asked for more than total - booked - reserved - internal_blocked or is emergency-blocked; for p percent an hour is asked for the least units with 100 * units >= p * total, the default total where the slot has none |
| InventoryTerms.BooksEachHour | packages/domain/repository.py:5046-5119 | a reservation that goes through for a placement without bookings adds one booking for each hour of the range, of exactly the units asked for, and answers their number |
| InventoryTerms.RaisesEachHour | packages/domain/repository.py:5060-5105 | it raises each hour's reserved counter by exactly the units asked for and changes nothing else but the status |
| InventoryTerms.EachRowReused | packages/domain/repository.py:5008-5044 | for a placement with bookings the released and expired ones are reserved anew, the others stay, and all are counted |
| InventoryTerms.EachRowAfter | packages/domain/repository.py:5122-5254 | committing, releasing and expiring: which bookings change and to what; a reservation expires only once its deadline is past |
| InventoryTerms.StatusTells | packages/domain/models.py:1342-1351 | in every run the status of a booked slot is sold out, limited or available exactly as its active bookings fill it, leave some or hold none |
| InventoryTerms.ReportedExactly | packages/domain/repository.py:5423-5581 | the conflict check reports an unusable surface and nothing else, or each rule against the request, a range without whole hours, and each hour with too little left |
| InventoryShares.SharesNeverExceed | packages/domain/repository.py:5073-5105 | in every run whose reactivations fit, the percentages that active bookings of different placements hold of one slot never add up to more than 100 |
| InventoryRace.RaceLosesExactly | packages/domain/repository.py:5060-5105 | however reservations race on a slot, the counter misses exactly the units that writes overwrote since their reservations read the row |
| InventoryRace.WriteFitsExactly | packages/domain/repository.py:5060-5105 | with a true counter and no emergency block, a write keeps the bookings within the slot if and only if there would still be room, were the row read again |
| InventoryRace.ExclusiveIsSafe | packages/domain/repository.py:5060-5105 | one reservation after another keeps the counter equal to the sum of the bookings and the bookings within the slot |
| InventoryRace.RaceOverbooks | packages/domain/repository.py:5060-5105 | a concrete race of two reservations of the only unit of a slot: both are booked and the counter shows one |
| InventorySuggest.SuggestAlternatives | packages/domain/repository.py:5683-5955 | at most max_results alternatives, best score first, exactly the accepted candidates in order; same-store ones are other active surfaces of the same store at the requested time, all others stay on the requested surface |
| InventorySuggest.NoSuggestionMeansNoSibling | packages/domain/repository.py:5770-5800 | no suggestion from a query that was not cut short means that every other active surface of the store conflicts with the request |
| InventorySuggest.ProposedExactly | packages/domain/repository.py:5721-5760 | an alternative is proposed if and only if nothing speaks against it and, for a later day, each hour requested has enough left or all have as many units as are asked for |
| InventorySuggest.TriesAll | packages/domain/repository.py:5789-5952 | every sibling returned, the request one and two hours later, with half its units, and one, two and three days later are tried |
| InventorySuggest.SuggestionsAreReservable | packages/domain/repository.py:5789-5955 | every alternative, given back to reserve in the same inventory state for a placement without bookings, succeeds and books every hour |
| InventorySuggest.LaterNeedsTheOriginal | packages/domain/repository.py:5917-5952 | when the requested hours cannot be satisfied no later day is proposed, however free it is, because the check is made on the requested range |
| CampaignLifecycle.CampaignDesk.ArchiveCampaign | packages/domain/repository.py:1655-1676 | archiving moves a draft or rejected campaign and no other |
| CampaignLifecycle.CampaignDesk.RequestApproval | packages/domain/repository.py:1684-1891 | reserves for every placement and flight or changes nothing at all; a draft becomes pending only when every reservation succeeded |
| CampaignLifecycle.CampaignDesk.ApproveCampaign | packages/domain/repository.py:1894-2016 | approval of a pending campaign commits exactly its reservations |
| CampaignLifecycle.CampaignDesk.RejectCampaign | packages/domain/repository.py:2019-2109 | rejection of a pending campaign releases everything it holds |
| CampaignLifecycle.CampaignDesk.ActivateCampaign | packages/domain/repository.py:2112-2163 | only an approved campaign becomes active |
| CampaignLifecycle.CampaignDesk.PauseCampaign | packages/domain/repository.py:2166-2217 | only an active campaign is paused |
| CampaignLifecycle.CampaignDesk.CompleteCampaign | packages/domain/repository.py:2220-2297 | only an active campaign all of whose flights are over is completed |
| CampaignLifecycle.LifecycleSafety | packages/domain/__init__.py:79-84 | in every run: histories are unbroken chains of at most five rows along the allowed transitions plus archiving; a pending campaign has its request on record; past approval no reservation is held; rejected and archived campaigns hold nothing; and no slot is ever overbooked |
| CampaignLifecycle.PathIsChain | packages/domain/__init__.py:87-110 | a history on an allowed path is an unbroken chain that ends at the current status |
| CampaignLifecycle.RequestsNeverReactivate | packages/domain/repository.py:1823-1871 | in every run, whichever flight of whichever placement a request has come to, no booking of that placement was released or has expired: the overbooking branch is out of the workflow's reach |
| CampaignAnswers.MovesExactly | packages/domain/repository.py:1655-2297 | archiving, activating, pausing and completing move exactly the campaigns with the status for it, completing only when there are flights and all have ended; no booking changes |
| CampaignAnswers.DecidesExactly | packages/domain/repository.py:1894-2109 | a pending campaign with its request on record, and for an approval a ready one, moves, and its reservations are committed or released with it; otherwise nothing changes |
| CampaignAnswers.RequestMovesExactly | packages/domain/repository.py:1684-1891 | a complete draft moves to pending if and only if each of its reservations, one after the other, meets nothing against it; otherwise nothing changes |
| CampaignAnswers.RequestBooks | packages/domain/repository.py:1823-1871 | in every run a request that goes through books, for each placement with a surface, each hour of its first dated flight, for its share of voice (100 if it has none), and nothing else |
| CampaignAnswers.CreatesDraft | packages/domain/repository.py:1513-1592 | a new campaign is a draft with its creation on record |
| CampaignAnswers.ExpiresOverdue | packages/domain/repository.py:5216-5254 | an expiry touches no campaign and expires the overdue reservations of all |
| CampaignAnswers.FullLifeIsReached | packages/domain/repository.py:1684-2297 | a campaign whose request goes through can be approved, activated and completed, with five rows of history |
| SeatPeak.PeakFromIntervals | packages/domain/licensing_repository.py:185-230 | the sweep returns the maximum, over all instants of the window, of the number of half-open intervals open at that instant |
| SeatPeak.PeakIsUnique | packages/domain/licensing_repository.py:185-230 | that maximum is one number, so the sweep cannot return another |
| SeatPeak.HandoverIsOneSeat | packages/domain/licensing_repository.py:206-230 | ends count before starts: a seat handed over at one instant never makes a peak of two |
| SeatPeak.FilterKeepsOccupancy | packages/domain/licensing_repository.py:258-265 | rows that do not overlap the window are open at no instant of it |
| SeatPeak.PeakSeatsForMonth | packages/domain/licensing_repository.py:233-269 | the peak over the queried rows is the peak over the license's whole seat history |
| SeatLedger.Ledger.AuthorizeAndReserve | packages/domain/licensing_service.py:183-252 | admits exactly when the grant is usable and a place is free, then adds one device and its open seat; denied, it changes nothing |
| SeatLedger.AdmittedExactly | packages/domain/licensing_repository.py:88-125 | an enrollment is admitted if and only if there is a grant, not revoked, begun, without end or before its end plus days of grace, and a place is free; it is in grace exactly from the end on; each denial has its one reason |
| SeatLedger.Ledger.ReconcileExistingFleet | packages/domain/licensing_service.py:255-302 | adds one open seat for exactly the active devices that have none |
| SeatLedger.Ledger.DecommissionDevice | packages/domain/licensing_service.py:337-432 | retires the device and closes its open seat; the other devices and seats stay |
| SeatLedger.DecommissionsExactly | packages/domain/licensing_service.py:337-432 | the answer, device by device status, and that exactly the open seats of a retired device end now |
| SeatLedger.EnrollsOne | packages/domain/licensing_service.py:240-252 | an enrollment adds the device, active, and one open seat for it under the grant from now on |
| SeatLedger.Ledger.GetReconciliationReport | packages/domain/licensing_service.py:466-584 | the findings of the four checks, exactly those that hold |
| SeatLedger.FindingsMean | packages/domain/licensing_service.py:490-584 | what each finding says of the devices, the seats and the grant |
| SeatLedger.ReportIsSoundAndComplete | packages/domain/licensing_service.py:490-584 | given one open seat per device, the report is empty if and only if an effective grant exists, open seats and active devices are in bijection, every open seat is under that grant and occupancy is within capacity |
| SeatLedger.OccupiedIsSeated | packages/domain/licensing_repository.py:128-141 | with one open seat per device, occupied seats and seated active devices are equally many |
| SeatLedger.EnrollmentCounts | packages/domain/licensing_service.py:205-252 | a new device with its seat takes exactly one place and keeps the ledger well-formed |
| SeatLedger.SeatedAfterReconcile | packages/domain/licensing_service.py:275-302 | after reconciliation every active device is seated, still by one open seat each |
| SeatLedger.SecondReconcileAddsNothing | packages/domain/licensing_service.py:275-302 | reconciling again seats nobody |
| SeatProtocol.StepSafety | packages/domain/licensing_service.py:205-252 | under the row lock an enrollment commits only while a place is free at that moment, and nothing but reconciliation otherwise raises the occupancy |
| SeatProtocol.NeverOverAdmitted | packages/domain/licensing_service.py:205-252 | under any interleaving of enrollment transactions and decommissions the occupied seats never exceed max_devices + overage_allowance |
| SeatProtocol.NoEnrollmentWhileFull | packages/domain/licensing_service.py:269-302 | reconciliation may exceed the capacity, but then no enrollment commits until the occupancy is below it again |
| SeatProtocol.NoEnrollmentUnderDeadGrant | packages/domain/licensing_service.py:205-252 | in every run an enrollment that commits has counted before, at a time when the grant was neither revoked, yet to come nor ended |
| RateLimiter.Limiter.Check | packages/observability/rate_limit.py:59-89 | refill, then take: the buckets and the answer are those of the limiter's specification |
| RateLimiter.Limiter.CleanupExpired | packages/observability/rate_limit.py:108-114 | exactly the buckets not refilled within two windows are deleted |
| RateLimiter.AdmittedIsPaidFor | packages/observability/rate_limit.py:59-89 | every admitted request is paid for by a token at hand or by time elapsed between the last refill and the latest reading, in whatever order the requests were read; truncation only loses |
| RateLimiter.WindowBound | packages/observability/rate_limit.py:59-89 | of requests whose readings all lie in [t0, t1], in any order, one bucket admits fewer than R + (t1 - t0) * R / W + 1, whatever it held and whenever it was refilled |
| RateLimiter.LevelsInRuns | packages/observability/rate_limit.py:59-114 | in every run, with cleanups or without, tokens stay between 0 and the rate |
| RateLimiter.AlikeInRuns | packages/observability/rate_limit.py:59-114 | in every timely run the limiter stays alike, key by key, to one that never deletes a bucket |
| RateLimiter.RunWindowBound | packages/observability/rate_limit.py:59-114 | at any point of any run from the empty limiter, of successive requests for one key whose readings all lie in [t0, t1] and lag no cleanup between them by a whole window, fewer than R + (t1 - t0) * R / W + 1 are let through, whatever came before, in whatever order they take the lock and whatever other keys do |
| RateLimiter.OutsideReadingBreaksBound | packages/observability/rate_limit.py:59-89 | a concrete run without cleanups in which three requests read at 0 are let through where the bound allows two, as a reading outside the interval comes between |
| RateLimiter.LateReadingsBreakBound | packages/observability/rate_limit.py:68-114 | a concrete run in which readings that lag the cleanups between them exceed the bound |
| RateLimiter.PatientRequestIsAdmitted | packages/observability/rate_limit.py:59-89 | a request at least W / R after the last refill is always let through |
| RateGuarantee.FirstAreGranted | packages/observability/rate_limit.py:59-114 | of the requests for a key of rate R the first R are let through, whatever the readings, the other keys and the cleanups |
| RateGuarantee.DeniedExactly | packages/observability/rate_limit.py:59-89 | a request is denied if and only if at least as many were let through since some request as the bucket held then, or could hold at most, plus the whole tokens earned since |
| RateGuarantee.RunDeniesExactly | packages/observability/rate_limit.py:59-114 | in every timely run from the empty limiter the answers to a key obey that condition, counted from the answers and readings alone |
| RateGuarantee.CleansExactly | packages/observability/rate_limit.py:108-114 | a cleanup keeps exactly the buckets refilled within two windows, as they are |
| RateGuarantee.OthersStay | packages/observability/rate_limit.py:68-89 | a request for one key leaves the buckets of the others alone |
| RateLimiter.CleanupIsUnobservable | packages/observability/rate_limit.py:108-114 | for any schedule of cleanups, every answer equals that of a limiter that never deletes a bucket, if every request whose bucket was deleted finds that the kept one would be refilled to the brim |
| RateLimiter.TimelyIsBrimful | packages/observability/rate_limit.py:68-114 | that is so in every run in which no request's reading lags an earlier cleanup's by a whole window |
| RateLimiter.InOrderIsTimely | packages/observability/rate_limit.py:68-89 | clock readings in the order of the events lag no cleanup |
| RateLimiter.CollectionGoesUnnoticed | packages/observability/rate_limit.py:68-114 | a request on a collected key is answered as if the bucket had been kept if and only if that bucket holds a token or has earned one by then |
| RateCollection.DeletionGoesUnnoticedExactly | packages/observability/rate_limit.py:68-114 | no later requests for the key tell a deleted bucket from a kept one if and only if the kept one would be refilled to the brim at the first of their readings |
| RateLimiter.LateReadingIsObservable | packages/observability/rate_limit.py:75-114 | a concrete schedule in which a reading that lags a cleanup by more than a window does notice the deletion |
| ManifestIds.SortForgetsOrder | packages/domain/delivery.py:321-334 | sorting by text forgets the order in which rows arrived |
| ManifestIds.IdsForgetOrder | packages/domain/delivery.py:299-377 | manifest ids and version hashes depend on the rows read, not on their order |
| ManifestIds.IdsIdentify | packages/domain/delivery.py:299-334 | equal manifest ids mean the same device and the same campaign in the same state, although the join does not delimit its lists |
| ManifestContents.IdsTellApart | packages/domain/delivery.py:299-377 | with separator-free texts and as many rows of each kind, two manifest ids agree if and only if device, surfaces, campaign, status, update time, assets, checksums, flights with their windows, and placements do |
| ManifestContents.PickedExactly | packages/domain/delivery.py:163-289 | a placement stands for the surface it names, else for those of its store, else of its cluster, else of its branch, else for none |
| ManifestContents.DevicesAdd | packages/domain/delivery.py:635-778 | every row added is made for one of the devices, with its surfaces in alphabetical order and the status of its attempt; every notice announces such a row or tells of a failure; and the count is of the rows generated |
| ManifestContents.PlanExactly | packages/domain/delivery.py:488-798 | nothing happens for a campaign that is not eligible, one failure is told when there are no devices, and a plan row appears exactly when no exception escaped and some manifest was generated |
| DeliveryTargets.ResolveTargets | packages/domain/delivery.py:163-289 | whatever order the queries return, the groups hold exactly the active surfaces of active devices that some placement picks by its most specific column, one group per device |
| ManifestGeneration.Session.GenerateForDevice | packages/domain/delivery.py:635-778 | a known id is skipped; otherwise record, mark and announcement appear together, or the failure is recorded |
| ManifestGeneration.Session.GenerateManifests | packages/domain/delivery.py:488-798 | the loop over devices, the no-target branch and the plan row are those of the generation specification |
| ManifestGeneration.ForDeviceKeepsConsistent | packages/domain/repository.py:2928-2943 | a new manifest gets the device's next version, so versions stay 1, 2, 3, ... in creation order; ids stay unique; announcements match generated manifests |
| ManifestGeneration.FineRunMakesAll | packages/domain/delivery.py:635-778 | after a run in which nothing failed every resolved device has a manifest row, which an earlier run may have left failed |
| ManifestGeneration.AllGeneratedExactly | packages/domain/delivery.py:635-778 | after an eligible run from which no exception escaped, every resolved device has a generated manifest if and only if each had one, or had no row yet and its attempt went well |
| ManifestGeneration.KnownIdIsFinal | packages/domain/delivery.py:653-664 | once a row with an id exists, no run changes which rows with that id there are |
| ManifestGeneration.PresentRunChangesNothing | packages/domain/delivery.py:653-664 | a run that finds every manifest changes nothing, whatever would have failed |
| ManifestGeneration.PresentForSameRows | packages/domain/delivery.py:577-664 | read again in any order, the same campaign and fleet resolve to the same manifest ids |
| DeliveryConsumer.Consumer.ProcessOne | packages/services/campaign_event_handler.py:397-448 | acked implies committed and no exception lost; terminated or raised implies an unchanged database, and so does nak'd unless a commit took effect whose reply was lost; a body that is no object is nak'd and raises again; the counters count the answers |
| DeliveryConsumer.AnsweredExactly | packages/services/campaign_event_handler.py:30-131 | the exact condition of each answer, and that the database changes only for an event of one of the seven types with an aggregate id, when generating raises nothing and the commit takes effect |
| DeliveryConsumer.Consumer.ProcessBatch | packages/services/campaign_event_handler.py:343-387 | the messages of a fetch are processed in turn until an exception gets out of one |
| DeliveryConsumer.LoopEndsExactly | packages/services/campaign_event_handler.py:343-387 | a message of a fetch is processed if and only if none before it breaks the loop: JSON the parser gives up on, a body that is no object, or a session that cannot be set up |
| DeliveryConsumer.PoisonIsNeverTerminated | packages/services/campaign_event_handler.py:397-448 | a message whose JSON is no usable event is never terminated or acknowledged, however often it is delivered, and stores nothing |
| DeliveryConsumer.HandleEvent | packages/services/campaign_event_handler.py:69-131 | an event without an aggregate or of another type succeeds without writing; otherwise success means that no exception escaped |
| DeliveryConsumer.RunKeepsConsistent | packages/services/campaign_event_handler.py:414-447 | in every run of messages: no manifest id twice, versions 1..n per device, every generated manifest announced exactly once, and rows are only ever added |
| DeliveryConsumer.EffectivelyOnce | packages/services/campaign_event_handler.py:414-447 | after one failure-free success any deliveries, redeliveries, lost acks and naks, interleaved with other campaigns, leave the campaign's manifests, plans and outbox rows unchanged |
| DeliveryConsumer.RedeliveryChangesNothing | packages/services/campaign_event_handler.py:414-447 | redelivering that campaign's events alone leaves the whole database unchanged |
| DeliveryConsumer.FailedIsFinal | packages/domain/delivery.py:653-664 | if all rows with an id are failed they stay so over every run of messages |
| DeliveryConsumer.FailedVisitIsAcked | packages/domain/delivery.py:751-778 | a visit that fails one manifest after its row was added, with an exception that leaves the transaction usable, is acknowledged, and no later delivery gives that device its manifest |
| DeliveryConsumer.AckedVisitIsComplete | packages/services/campaign_event_handler.py:414-447 | after an acknowledged eligible visit every resolved device has a generated manifest if and only if each had one, or had no row yet and building it went well |
| DeliveryConsumer.NoTargetsIsNotIdempotent | packages/domain/delivery.py:504-519 | with no targets resolved every delivery adds an outbox row |
| DeviceView.EtagIsInjective | apps/device-gateway/main.py:328 | the entity tag determines the content hash and the emergency state |
| DeviceView.StripQuoted | apps/device-gateway/main.py:330 | stripping quotes from a quoted tag gives the tag back if and only if the hash does not begin with a quote |
| DeviceView.Gateway.GetLatestManifest | apps/device-gateway/main.py:316-361 | rate limit, metadata, 304, cache and assembly in that order; only a fresh assembly is cached |
| DeviceView.RepliesExactly | apps/device-gateway/main.py:323-361 | 404, 304 or 200, exactly when, with the current tag, and whether the document is the cached or the assembled one |
| DeviceView.CurrentClientGets304 | apps/device-gateway/main.py:331-336 | a client that shows what is current is answered 304 |
| DeviceView.LimitedClientKeeps | apps/device-gateway/main.py:314-321 | a client over its rate limit is told so and keeps what it has |
| DeviceView.ServedIsCurrent | apps/device-gateway/main.py:322-361 | after a 200 or 304 a client shows the current content hash and emergency state if and only if the reply was not an assembly that saw another state than the metadata read |
| DeviceView.CoherentExactly | apps/device-gateway/main.py:322-361 | for every run, whatever the cache held and however the emergency was toggled, the client is current after each 200 and 304 if and only if every assembly it got agreed with the metadata read of its request |
| DeviceView.ViewIsCoherent | apps/device-gateway/main.py:322-361 | in particular, in every run in which the two reads of each request agree |
| DeviceView.ViewFollowsDatabase | packages/domain/repository.py:3149-3198 | if each request reads one database state, the client shows a latest generated manifest and whether an override is active |
| DeviceView.DisagreeingReadsStick | apps/device-gateway/main.py:322-361 | without agreement of the reads a client keeps a wrong payload behind a 304 |
| DeviceView.ReasonMayBeStale | packages/domain/repository.py:3189-3198 | the emergency reason is not part of the tag: it may be stale after a 304 |
| PopIngestion.Session.WritePopEvent | packages/domain/pop_ingestion.py:84-116 | row, dedup key and notice are written together or not at all; a value that does not fit its column is an uncaught error, a key already there a duplicate or an error depending on the constraint reported, an unknown asset an error |
| PopIngestion.Session.IngestEvent | packages/domain/pop_ingestion.py:119-325 | the verdict and the tables after one event, or the exception it raises, are those of the ingestion specification, check by check in order |
| PopIngestion.Session.IngestBatch | packages/domain/pop_ingestion.py:328-386 | one verdict per event and four counts that tally them and sum to the batch length, or the exception of the first event that raises |
| PopIngestion.RunKeepsSound | packages/domain/pop_ingestion.py:98-325 | in every run of batches and quarantine expiries: one row per event id, the dedup index is exactly the set of row ids, every accepted row is true of its manifest, every row is announced once |
| PopReceipts.JudgedExactly | packages/domain/pop_ingestion.py:135-300 | the exact conditions, on event, manifest and clock, under which a new event is accepted, put in quarantine for an unknown manifest or a clock ahead, or rejected |
| PopReceipts.RejectedFor | packages/domain/pop_ingestion.py:135-300 | a rejection names the first check that the event fails |
| PopReceipts.RaisesExactly | packages/domain/pop_ingestion.py:135-325 | judging an event raises exactly when its age is looked at and its rendering time has no offset, when its device or manifest cannot be looked up, or when its row does not fit the columns |
| PopReceipts.BatchReceipts | packages/domain/pop_ingestion.py:185-325 | after a batch that goes through, the rows added are one for one the accepted and quarantined events, with device, surface, asset, both times and duration as the device sent them, manifest and campaign as trusted or as claimed, and 72 hours to live in quarantine |
| PopReceipts.OneNotice | packages/domain/pop_ingestion.py:84-116 | a recorded event is announced as accepted or as quarantined, as it is recorded, under the id of its row; any other is not announced |
| PopReceipts.CountsAreNumbers | packages/domain/pop_ingestion.py:346-363 | the four counts of a batch are the numbers of its events answered so |
| PopReceipts.BatchIsSummarised | packages/domain/pop_ingestion.py:365-380 | a batch ends with one summary of these counts |
| PopReceipts.ExpiresExactly | packages/domain/repository.py:3559-3584 | an expiry expires exactly the quarantined rows whose time is before its own and changes nothing else |
| PopReceipts.BilledAreAccepted | packages/domain/pop_ingestion.py:296-325 | in every run from empty tables the rows billed to a campaign are one for one the events answered as accepted that name a manifest of it |
| PopReceipts.SummaryIsOfEvents | packages/domain/repository.py:3594-3640 | so the campaign summary counts these events, adds up the durations they report, and counts their devices and surfaces |
| PopBatches.BatchFailsExactly | packages/domain/pop_ingestion.py:119-325 | a batch fails if and only if one of its events does: its id holds a NUL character, or it is new and a check of it raises (a time without offset, a NUL character), or it is to be written and does not fit its row, names an unknown asset, or has an id cut to a known one while the database reports the key of the rows |
| PopBatches.SplitBatch | packages/domain/pop_ingestion.py:328-386 | a batch that no event fails, cut in two, gives the same verdicts and, apart from batch metadata, the same tables |
| PopBatches.SplitExactly | packages/domain/pop_ingestion.py:328-386 | for every batch: cutting it in two leaves the same tables if and only if no event fails it, or what survives of the two parts records nothing |
| PopBatches.SplitCanKeepMore | packages/domain/pop_ingestion.py:328-386 | any new event that fails takes a good event of the same batch with it, which is kept when the two are sent one after the other |
| PopBatches.UnknownAssetFailsBatch | packages/domain/pop_ingestion.py:185-225 | such an event: manifest and asset both unknown |
| PopBatches.LongIdFailsBatch | packages/domain/pop_ingestion.py:84-116 | such an event: an id of 40 characters, which the request schema allows and the column does not hold |
| PopBatches.LongSurfaceFailsBatch | packages/domain/pop_ingestion.py:185-225 | such an event: a surface of 40 characters in quarantine |
| PopBatches.NoOffsetFailsBatch | packages/domain/pop_ingestion.py:170-173 | such an event: a rendering time without UTC offset |
| PopBatches.ReplayAddsNothing | packages/domain/pop_ingestion.py:139-158 | a batch that no event fails, sent again then or later, adds no row, key or notice: every event is a duplicate or rejected, or the second sending fails, which is so if and only if an event still to be written has an id longer than its column and the database reports the key of the rows |
| PopBatches.PaddedIdFailsReplay | packages/domain/pop_ingestion.py:84-116 | a concrete event, accepted first, whose second sending fails: its id is padded with a blank beyond the column |
| PopBatches.ReplayExactly | packages/domain/pop_ingestion.py:328-386 | for every batch: a second sending leaves the tables of the first if and only if the first went through, or the second is rolled back, or nothing is left to record by then |
| PopRace.StepKeepsInv | packages/domain/pop_ingestion.py:84-116 | lookup, blocked insert, unique violation on either constraint, commit and abort each keep the invariant of racing ingestions |
| PopRace.ExactlyOnce | packages/domain/pop_ingestion.py:84-116 | however ingestions race, committed rows have distinct ids and are exactly, in order, the events whose devices were told they are recorded, under the ids their column keeps; whoever was told "duplicate" is recorded too |
| PopReports.ReportConserves | packages/domain/repository.py:3710-3733 | grouping loses nothing and counts nothing twice: lines add up to rows, and there are as many lines as keys |
| PopReports.OuterJoinKeepsRows | packages/domain/repository.py:3665-3679 | a left outer join on a primary key keeps every row exactly once, in order |
| PopReports.DayIsLocal | packages/domain/repository.py:3660-3710 | a row counts, with its duration, for the day on which it was rendered in the time zone of its store, else of its branch, else Europe/Moscow |
| PopReports.ReportsAgree | packages/domain/repository.py:3594-3733 | summary, per-day and per-surface reports agree on impressions and duration, and unique_surfaces is the number of per-surface lines |
| PopReports.BilledIsTrue | packages/domain/repository.py:3588-3591 | exactly the accepted rows of a campaign are billed, each true of a manifest of that campaign |
| PopReports.ExpiryKeepsReports | packages/domain/repository.py:3559-3588 | expiring quarantined rows changes no report |
| RefreshSessions.FoundIsLive | packages/auth/repository.py:170-186 | the lookup returns a session of that token that is neither revoked, rotated nor expired, and None only if there is none |
| RefreshSessions.AuthService.RevokeOldest | packages/auth/repository.py:227-254 | exactly the surplus oldest open sessions are revoked, and their number is returned |
| RefreshSessions.AuthService.IssueSession | packages/auth/service.py:399-429 | a login makes room, then opens one session in a new family |
| RefreshSessions.AuthService.RefreshSession | packages/auth/service.py:458-521 | an unknown token changes nothing, an inactive user's session is revoked, otherwise the session is rotated and a successor joins its family |
| RefreshSessions.AuthService.Logout | packages/auth/service.py:527-553 | revokes the session of a live token and nothing else |
| RefreshSessions.AuthService.RevokeAllForUser | packages/auth/repository.py:307-321 | none of the user's sessions stays open, no other session changes, and the number revoked is returned |
| RefreshSessions.TokensAreExchangedOnce | packages/auth/service.py:465-513 | in every run, with calls committed or rolled back, each family has at most one session neither revoked nor rotated, and no token is exchanged twice |
| RefreshSessions.ReplayChangesNothing | packages/auth/service.py:465-482 | replaying an exchanged token is refused and changes nothing: the family is not revoked |
| RefreshSessions.LiveSessionsAreBounded | packages/auth/repository.py:227-254 | in every run no user has more than max_sessions_per_user + 1 live sessions |
| RefreshSessions.OldestGoFirst | packages/auth/repository.py:227-254 | no revoked session is younger than an open one that stays |
| RefreshSessions.LoginEndsExactly | packages/auth/repository.py:227-254 | a login ends a live session if and only if it is surplus; with distinct issue times, if and only if more than the maximum of the user's open sessions, rotated ones included, are at least as young |
| RefreshSessions.RotatedSessionsCrowdOut | packages/auth/repository.py:227-254 | so the oldest session is ended although few sessions are live |
| RefreshSessions.CrowdingOutIsReached | packages/auth/repository.py:227-254 | a run from the empty table, at a limit of two, in which a login ends one of only two live sessions |
| RefreshSessions.BoundIsMet | packages/auth/service.py:399-429 | a login that need not make room adds a live session, so the bound of one above the maximum is met |
| RefreshAnswers.ExchangedExactly | packages/auth/service.py:465-513 | a token is exchanged if and only if a session neither revoked, rotated nor expired has it and its user is active |
| RefreshAnswers.ExchangeOpensSuccessor | packages/auth/service.py:495-513 | an exchange rotates that session and opens one of the same user and family under a fresh token for the full time; the old token is dead |
| RefreshAnswers.InactiveIsRevoked | packages/auth/service.py:491-493 | a refresh for an inactive user adds no session and leaves no session that the token can refresh |
| RefreshAnswers.OnlyActiveExchange | packages/auth/service.py:465-513 | in every run a token is exchanged only by a committed call whose user is active |
| RefreshAnswers.LogoutKills | packages/auth/service.py:527-553 | after a logout the token is dead and no other session has changed |
| RefreshAnswers.RevokeAllKills | packages/auth/repository.py:307-321 | which sessions are revoked with all of a user's, and that none can be refreshed afterwards |
| RefreshAnswers.LoginOpens | packages/auth/service.py:399-429 | a login opens one session in a family of its own for the full time, and of the others at most revokes open ones of its user |
| RefreshAnswers.SparedStays | packages/auth/repository.py:170-254 | over any run of calls that concern neither its token nor its user a session stays as it is |
| RuntimeSimulator.Simulator.ApplyManifest | packages/runtime/simulator.py:102-191 | refused for the first objection and then nothing changes; otherwise current and last-known-good move on together |
| RuntimeSimulator.Simulator.Rollback | packages/runtime/simulator.py:205-207 | current becomes the last known good manifest, nothing else changes |
| RuntimeSimulator.Simulator.SetKillSwitch | packages/runtime/simulator.py:211-219 | only the level named changes, and the cache counts as fresh even for an unknown level |
| RuntimeSimulator.Simulator.RenderSlot | packages/runtime/simulator.py:254-371 | the six gates in order; an event is queued exactly when all pass, filler is allowed and the id is new |
| RuntimeSimulator.Simulator.AdvanceOfflineClock | packages/runtime/simulator.py:419-423 | advanced time is accumulated and moves the start of an offline period back |
| RuntimeSimulator.Simulator.Drain | packages/runtime/simulator.py:465-469 | hands over the queue and clears it, but not the ids known |
| RuntimeSimulator.PopIsSafe | packages/runtime/simulator.py:286-371 | in every run each emitted event was lawful: its manifest was current, the kill switch fresh and off for its campaign, and other content than filler within the offline limit and not past a readable end of validity; no id is handed over twice without a reset |
| RuntimeSimulator.ExpiredExactly | packages/runtime/simulator.py:286-325 | a request is refused as expired if and only if it passes the gates for kill switch, offline limit and manifest, the end of validity is readable and past, and it is not filler allowed then |
| RuntimeSimulator.UnreadableEndNeverExpires | packages/runtime/simulator.py:401-408 | a manifest whose end of validity is unreadable or has no UTC offset is applied, shown and billed at whatever time |
| RuntimeSimulator.ReadableEndExpires | packages/runtime/simulator.py:401-408 | the same manifest with a readable end is shown exactly until then |
| RuntimeSimulator.VersionsOnlyRise | packages/runtime/simulator.py:138-150 | without rollback, reset or emergency flag the version never drops, and every change raises it |
| RuntimeSimulator.AcceptsGenerated | packages/runtime/simulator.py:138-191 | after any run of the delivery pipeline a device offered the manifests generated for it, failed ones left out, in creation order accepts each |
| RuntimeSimulator.RejectsReplays | packages/runtime/simulator.py:138-150 | and refuses each of them when it is offered again |
| RuntimeSimulator.StaleEmitsNothing | packages/runtime/simulator.py:229-246 | from the moment the kill-switch cache is stale nothing is queued until it is fresh again |
| RuntimeSimulator.AdvancedTimeCountsTwice | packages/runtime/simulator.py:419-435 | time advanced while offline counts twice, so the limit is reached at half of it |
| RuntimeSimulator.OfflineTimeStays | packages/runtime/simulator.py:412-435 | advanced offline time is forgotten by a reset only |
| RuntimeSimulator.OnlineMayStayExpired | packages/runtime/simulator.py:412-435 | back online a device is past its limit if and only if the advanced time alone reaches it |
| RuntimeRules.TakenExactly | packages/runtime/simulator.py:102-191 | a manifest is taken if and only if it is complete, holds no forbidden term, is for this device, signed as its key demands, and newer than the current one or an emergency |
| RuntimeRules.OnlyTrusted | packages/runtime/simulator.py:102-207 | in every run the current and the last known good manifest are such ones: one whose signature does not verify is never shown, rollback included |
| RuntimeRules.RefusedFor | packages/runtime/simulator.py:286-335 | each refusal of a request has its exact reason, and a request is played exactly when none applies |
| RuntimeRules.RecordedExactly | packages/runtime/simulator.py:335-371 | a request that is played is recorded exactly when it is no filler or filler that the manifest wants recorded, and its id is new; the event says what was asked for |
| RuntimeRules.EventsSayWhatWasAsked | packages/runtime/simulator.py:373-399 | in every run each event has the campaign, asset, surface and duration of its request, and the device and manifest it was shown under |
| RuntimeRules.SetsOneLevel | packages/runtime/simulator.py:211-246 | setting a level of the kill switch changes that level alone and makes the state fresh |
| RuntimeRules.OfflineClock | packages/runtime/simulator.py:412-423 | going offline starts a stopped clock, going online stops it, advancing adds the hours and moves the start back |
| RuntimeRules.DrainsAll | packages/runtime/simulator.py:465-483 | a drain hands over all that is queued, in order, and leaves nothing; nothing else takes from the queue but a reset |

## Left out

- `create_inventory_booking` inserts a reserved booking without touching counters; it is outside the runs, whose conservation it would break.
- Not every flight hour is claimed to be booked: a later flight of the same placement reuses the first flight's bookings.
- `available_capacity` and the reason texts of suggestions, the ordering of applicable rules (it only decides which message comes first) and the text of warnings.
- Booking timestamps and reasons (`committed_at`, `released_at`, `release_reason`, `updated_at`), approval rows and `DeviceStatusHistory`: written beside the state, never read by the modelled code.
- Tenant scopes, row-level security, permission checks, audit events and metrics: access control and logging.
- The creative, contract and readiness checks of an approval request and `check_eligibility` of a delivery: their outcome is an input.
- `complete_expired_campaigns`: it repeats `complete_campaign` for many campaigns.
- `_month_bounds`: the calendar arithmetic of a month (which has no successor for December of year 9999); the window is an input of the sweep.
- License report fields other than the peak, and `_days_remaining`: no state depends on them.
- The limiter switched off by configuration, and a window of zero seconds (a division error in the code).
- RateLimiter.RunWindowBound: readings must not lag a cleanup among the requests by a whole window (`LateReadingsBreakBound` shows why, `InOrderIsTimely` that readings in order do not), and none outside the interval may come between (`OutsideReadingBreaksBound`).
- DeviceView.CoherentExactly: content hashes must not begin with a quote, as generated ones, which begin with "sha256:", never do; `LeadingQuoteMisleads` shows what another one would lead to.
- DeliveryConsumer.AckedVisitIsComplete: device ids must not contain the separator of the joined text, as UUIDs never do; otherwise two devices could share a manifest id.
- RateLimiter.WindowBound: real arithmetic; floating-point rounding is not modelled.
- Manifest playlists, signatures and content hashes of generated manifests, and delivery states other than planned, generated and failed.
- Two consumers generating at once: messages are processed one at a time, as the consumer loop does. A rollback that raises, and stopping or cancelling the loop.
- `outbox_relay.py` and the publisher are not part of this model.
- Enforcing a batch size limit and parsing of requests: done by the HTTP schema.
- Surrogate row ids, retailer ids and reception times of recorded events; the manifest rows that events are checked against are taken to fit their columns, as stored ones do.
- First and last rendering instants of the campaign summary.
- PopReports.ReportsAgree: the database's time-zone conversion is an arbitrary function of zone and instant.
- Password, LDAP and break-glass login, access tokens, login attempts and reset tokens: only the session table is modelled, and fresh tokens and families never collide.
- RefreshSessions.LiveSessionsAreBounded: calls are one after another with a clock that does not run backwards; two simultaneous refreshes of one token are not modelled.
- InventoryRuns.RunCapacity: the ledger is proved for one call after another; `InventoryRace` models reservations racing on one slot, not races with releases, commits or expiries.
- PopIngestion.Session.IngestEvent: a recording time without offset is read as the server's local time; the model is given the instant.
- Manifest documents whose fields have another type than the simulator expects (an exception), `playback_active` of the simulator, the error texts of failed validation, and the order in which several validation errors are joined.
- HTTP, Redis, NATS and SQLAlchemy beyond the transaction, lock, savepoint and uniqueness behaviour used above.
