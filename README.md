# Trip provisioning on a shared ledger: a verified model

This project models the deterministic core of a Corda playground in which
trip providers (an airline, a ferry, a train operator, bike and car rental
offices, a taxi) answer a consumer's trip request with priced offers, an
offering service (the provider's oracle) remembers what it offered and
co-signs only acceptances of its own unexpired offers, and payment
operators issue and revoke payment guarantees backed by reserves on
accounts.

The model has these parts:

- `Time` (time.dfy): zone-less date-times as milliseconds, with hour of day,
  `withHour(h)`-style truncation, truncation to the second and
  `ChronoUnit.HOURS.between`.
- `Commitments` (commitments.dfy): commitments, their detail variants,
  offers, and the trip coverage predicate `isCoveredBy`.
- `MonetaryStates` (monetary.dfy): accounts, reserves, guarantees,
  obligations, agreements, the commands, and the account contract's
  command dispatch.
- `Schedules` (schedules.dfy): trip duration and price, and the three
  schedule policies.
  - The strict timetable and the business-hours optimiser are methods with
    loops, each proved equal to a specification function.
  - Lemmas then state what those functions promise.
- `TripOffers` (offers.dfy): the three offer builders and `composeOffers`,
  a method whose `forEach` is a proved loop.
- `OfferingService` (oracle.dfy): the verification cache as a class over a
  `map<int, set<int>>` of hash buckets, plus the offering service's `query`
  and `sign` and the configuration-file name.
- `LedgerRecords` (ledger.dfy): the unconsumed records of all vaults as a
  map from linear identifier to record, together with:
  - vault queries by identifier;
  - what committing a transaction does to that map.
- `GuaranteeFlows` (guarantees.dfy) and `OfferAcceptance` (acceptance.dfy):
  the transactions that issuing and revoking guarantees and accepting an
  offer build, with their error cases, as functions.
- `LedgerFlows` (flows.dfy): a `Ledger` class whose methods are the flows.
  - Each checks what the flow checks, then commits the transaction (consume
    the inputs, add the outputs, use fresh identifiers).
  - Each is proved to do exactly what the corresponding function says.

Conventions of the model:

- A party is a natural number, and its owning key is identified with it.
- A linear identifier is a natural number. The ledger hands out fresh ones
  from a counter.
- A record is in a node's vault when the node is one of its participants.
- The current time and the offers' `hashCode` are parameters.
- Trip distances are whole kilometres given by the caller.

Two behaviours of the code worth knowing:

- The strict timetable visits the departure hours in the order they are
  listed. The providers' own lists are sorted, so for them that order is
  increasing.
- The business-hours optimiser as written returns only the first of the
  slots with the least waiting time, and the cache purge as written fails
  when it removes an expired bucket while another bucket remains. Both are
  modelled as written, and the rest of the model uses the corrected
  versions. See "Findings" and "Left out".

## Model

Paths are relative to the repository root. `MockTripProvisionDS.kt`, `ProvisionOfferingService.kt` and the flows live under `cordapp/src/main/kotlin/com/luxoft/poc/mobi/`.

| member | source | states |
|---|---|---|
| Time.Hour | cordapp/src/main/kotlin/com/luxoft/poc/mobi/service/MockTripProvisionDS.kt:366 | `t.hour` is in 0..23 and `t` lies in that hour of its day |
| Time.AtHour | cordapp/src/main/kotlin/com/luxoft/poc/mobi/service/MockTripProvisionDS.kt:367-368 | `withHour(h).withMinute(0).withSecond(0).withNano(0)` stays on the same day, has hour `h` and is a whole hour |
| Time.TruncToSecond | cordapp/src/main/kotlin/com/luxoft/poc/mobi/service/ProvisionOfferingService.kt:196 | `withNano(0)` is the whole second at or just before `t` |
| Time.HoursBetween | cordapp/src/main/kotlin/com/luxoft/poc/mobi/service/MockTripProvisionDS.kt:340 | `ChronoUnit.HOURS.between(a, b)` counts the complete hours from `a` to `b`; it is non-positive when `b` is before `a` |
| Time.ShiftDays | cordapp/src/main/kotlin/com/luxoft/poc/mobi/service/MockTripProvisionDS.kt:369 | `plusDays(n)` keeps the hour of day and moves midnight by `n` days |
| Collections.MinOf | cordapp/src/main/kotlin/com/luxoft/poc/mobi/service/MockTripProvisionDS.kt:449 | the first key of the sorted keys is a key, and no key is smaller |
| Commitments.IsCoveredBy | cordapp-model/src/main/kotlin/com/luxoft/poc/mobi/model/data/CommitmentDetails.kt:47-66 | the fold gives true exactly when the chain is non-empty and made only of trips of the same transport, and it starts where the trip starts, ends where it ends, departs no earlier and arrives no later |
| Commitments.CoveredBySelf | cordapp-model/src/main/kotlin/com/luxoft/poc/mobi/model/data/CommitmentDetails.kt:47-66 | a trip is covered by the chain holding only itself, and nothing is covered by the empty chain |
| Commitments.CoveredByIgnoresInnerLegs | cordapp-model/src/main/kotlin/com/luxoft/poc/mobi/model/data/CommitmentDetails.kt:49-64 | an inner leg is checked only for being a trip of the same transport: replacing it by any such trip does not change the verdict |
| Commitments.CoveredByTransitive | cordapp-model/src/main/kotlin/com/luxoft/poc/mobi/model/data/CommitmentDetails.kt:54-64 | a chain that covers a wider trip covers every trip that the wider trip covers |
| MonetaryStates.VerifyAccountContract | cordapp-contracts-states/src/main/kotlin/com/luxoft/poc/mobi/MonetaryStates.kt:25-48 | the account contract passes exactly when there is one command and it is one of the three account commands; any other number of commands fails the `single()` |
| MonetaryStates.AccountContractRefusesOfferCommands | cordapp-contracts-states/src/main/kotlin/com/luxoft/poc/mobi/MonetaryStates.kt:28-46 | the offer commands are refused, alone as unrecognized and together as not a single command |
| Schedules.Speed | cordapp/src/main/kotlin/com/luxoft/poc/mobi/service/MockTripProvisionDS.kt:287-295 | every transport's speed is positive, so the division never fails |
| Schedules.UnitCost | cordapp/src/main/kotlin/com/luxoft/poc/mobi/service/MockTripProvisionDS.kt:309-317 | every transport's cost per kilometre is positive |
| Schedules.TripDuration | cordapp/src/main/kotlin/com/luxoft/poc/mobi/service/MockTripProvisionDS.kt:286-306 | the duration is at least one hour; the distance is covered within it at the transport's speed, but not within one hour less |
| Schedules.TripDurationMonotone | cordapp/src/main/kotlin/com/luxoft/poc/mobi/service/MockTripProvisionDS.kt:286-295 | a longer trip never takes fewer hours |
| Schedules.TripPrice | cordapp/src/main/kotlin/com/luxoft/poc/mobi/service/MockTripProvisionDS.kt:308-317 | the price is one unit plus the distance times the unit cost, so it is at least `1 + distance` |
| Schedules.TripPriceMonotone | cordapp/src/main/kotlin/com/luxoft/poc/mobi/service/MockTripProvisionDS.kt:308-317 | a longer trip never costs less, and a strictly longer one costs strictly more |
| Schedules.FreeSlots | cordapp/src/main/kotlin/com/luxoft/poc/mobi/service/MockTripProvisionDS.kt:339-349 | the free schedule: <br>• no slot exactly when the window has fewer whole hours than the trip; <br>• one slot, the window itself, exactly when it has that many; <br>• otherwise two slots, the first leaving at once and the second arriving at the last moment, each lasting the trip's duration; <br>• every slot leaves no earlier than `departAfter`, arrives by `arriveBefore` and spans at least the trip's duration |
| Schedules.FreeExactWindow | cordapp/src/main/kotlin/com/luxoft/poc/mobi/service/MockTripProvisionDS.kt:344-345 | a five-hour window for a five-hour trip yields that window alone |
| Schedules.StrictSlot | cordapp/src/main/kotlin/com/luxoft/poc/mobi/service/MockTripProvisionDS.kt:366-370 | the departure for hour `h` on the `day`-th day: <br>• a whole hour, at hour `h`, on the day `day` days after `departAfter`'s; <br>• after `departAfter` whenever the hour is eligible (later than `departAfter`'s hour on day 0, any hour afterwards); <br>• the arrival is the trip's duration later |
| Schedules.DayCandidates | cordapp/src/main/kotlin/com/luxoft/poc/mobi/service/MockTripProvisionDS.kt:365-377 | a day's candidates, one at most per listed hour, depart after `departAfter` and arrive exactly the duration later; on a later day there is one per listed hour |
| Schedules.LaterDayCandidates | cordapp/src/main/kotlin/com/luxoft/poc/mobi/service/MockTripProvisionDS.kt:366 | after the first day every listed hour is a candidate, in list order |
| Schedules.TakeUntilLate | cordapp/src/main/kotlin/com/luxoft/poc/mobi/service/MockTripProvisionDS.kt:371-375 | the kept candidates are a prefix of the day's candidates and all arrive in time; when the prefix is shorter, the next candidate arrives too late |
| Schedules.StrictFrom | cordapp/src/main/kotlin/com/luxoft/poc/mobi/service/MockTripProvisionDS.kt:364-379 | the enumeration from a given day on yields only slots after `departAfter`, lasting the duration and arriving by `arriveBefore` |
| Schedules.StrictSlots | cordapp/src/main/kotlin/com/luxoft/poc/mobi/service/MockTripProvisionDS.kt:359-381 | every slot of the strict schedule leaves no earlier than `departAfter`, arrives by `arriveBefore` and spans the trip's duration |
| Schedules.StrictDay | cordapp/src/main/kotlin/com/luxoft/poc/mobi/service/MockTripProvisionDS.kt:365-377 | one pass of the inner loop: <br>• it yields the day's part of the enumeration; <br>• `late` reports that the enumeration ends on this day; <br>• otherwise the enumeration goes on with the next day, and after the first day what is left of the window shrinks |
| Schedules.StrictDeparturesAndArrivals | cordapp/src/main/kotlin/com/luxoft/poc/mobi/service/MockTripProvisionDS.kt:359-381 | the `while (!done)` loop over the days terminates, for a non-empty list of hours, and returns exactly the strict schedule's slots |
| Schedules.StrictExample | cordapp/src/main/kotlin/com/luxoft/poc/mobi/service/MockTripProvisionDS.kt:359-381 | departures at 8, 14 and 20 o'clock, a two-hour trip and a window from 07:00 to 21:30 give exactly the 8 and 14 o'clock trips |
| Schedules.AdjustedDeparture | cordapp/src/main/kotlin/com/luxoft/poc/mobi/service/MockTripProvisionDS.kt:392-400 | the departure moves forward by less than a day to the first moment the office is open: <br>• unchanged inside business hours; <br>• the office is closed at every moment skipped |
| Schedules.HoursBeforeOpening | cordapp/src/main/kotlin/com/luxoft/poc/mobi/service/MockTripProvisionDS.kt:393-395 | before opening, the office stays closed until the opening hour of the same day |
| Schedules.HoursAfterClosing | cordapp/src/main/kotlin/com/luxoft/poc/mobi/service/MockTripProvisionDS.kt:396-398 | after closing, the office stays closed until the opening hour of the next day |
| Schedules.AdjustedArrival | cordapp/src/main/kotlin/com/luxoft/poc/mobi/service/MockTripProvisionDS.kt:401-409 | the arrival moves back by less than a day to an hour between opening and closing: <br>• unchanged inside business hours; <br>• at or after closing, the closing hour of the same day; <br>• before opening, the closing hour of the previous day |
| Schedules.WaitingTime | cordapp/src/main/kotlin/com/luxoft/poc/mobi/service/MockTripProvisionDS.kt:434-440 | the wait is 0..23 hours; it is zero exactly when the arrival hour is within opening and closing (both included); otherwise the arrival hour plus the wait is the opening hour |
| Schedules.Scan | cordapp/src/main/kotlin/com/luxoft/poc/mobi/service/MockTripProvisionDS.kt:429-448 | the hourly scan keeps only slots inside the window that depart between the opening and the closing hour (both included); the first departure is kept when it qualifies |
| Schedules.WithWaitMembers | cordapp/src/main/kotlin/com/luxoft/poc/mobi/service/MockTripProvisionDS.kt:441-444 | a waiting time's bucket holds exactly the scanned slots with that waiting time |
| Schedules.WaitsOfMembers | cordapp/src/main/kotlin/com/luxoft/poc/mobi/service/MockTripProvisionDS.kt:441-444 | a waiting time is a key of the map exactly when some scanned slot has it |
| Schedules.BestSlotsAreLeast | cordapp/src/main/kotlin/com/luxoft/poc/mobi/service/MockTripProvisionDS.kt:449 | the bucket of the smallest key is non-empty, holds only scanned slots, none waiting longer than any scanned slot, and every slot with the least wait |
| Schedules.BucketsStep | cordapp/src/main/kotlin/com/luxoft/poc/mobi/service/MockTripProvisionDS.kt:441-444 | filing one more slot appends it to its waiting time's bucket, or opens that bucket with it |
| Schedules.FirstBucketsStep | cordapp/src/main/kotlin/com/luxoft/poc/mobi/service/MockTripProvisionDS.kt:441-444 | as written, filing a slot under an existing waiting time leaves the map unchanged |
| Schedules.BucketsBest | cordapp/src/main/kotlin/com/luxoft/poc/mobi/service/MockTripProvisionDS.kt:449 | the bucket under the smallest key holds the best slots |
| Schedules.FirstBucketsBest | cordapp/src/main/kotlin/com/luxoft/poc/mobi/service/MockTripProvisionDS.kt:442-449 | as written, the bucket under the smallest key holds only the first of the best slots |
| Schedules.ConsiderDeparture | cordapp/src/main/kotlin/com/luxoft/poc/mobi/service/MockTripProvisionDS.kt:433-445 | one turn of the loop advances the scan by one hour and keeps the map equal to the buckets of the slots scanned so far |
| Schedules.OptimizeWithBusinessHours | cordapp/src/main/kotlin/com/luxoft/poc/mobi/service/MockTripProvisionDS.kt:424-450 | the corrected optimiser returns all slots of the hourly scan that share the least waiting time, in scan order |
| Schedules.ConsiderDepartureAsWritten | cordapp/src/main/kotlin/com/luxoft/poc/mobi/service/MockTripProvisionDS.kt:433-445 | one turn of the loop as written keeps the map equal to the first-slot-only buckets |
| Schedules.OptimizeWithBusinessHoursAsWritten | cordapp/src/main/kotlin/com/luxoft/poc/mobi/service/MockTripProvisionDS.kt:424-450 | the optimiser as written returns only the first of the slots with the least waiting time |
| Schedules.BusinessHoursSlots | cordapp/src/main/kotlin/com/luxoft/poc/mobi/service/MockTripProvisionDS.kt:391-417 | the business-hours policy with the corrected optimiser: <br>• no slot exactly when the adjusted window has fewer whole hours than the trip; <br>• the adjusted window itself when it has exactly that many; <br>• otherwise slots of the hourly scan, none waiting longer than any scanned slot, and every scanned slot of least wait; <br>• every slot lies inside the requested window, spans at least the trip's duration and departs between the opening and the closing hour |
| Schedules.BusinessHoursDeparturesAndArrivals | cordapp/src/main/kotlin/com/luxoft/poc/mobi/service/MockTripProvisionDS.kt:391-417 | the method with the corrected optimiser computes exactly `BusinessHoursSlots`; it calls the optimiser only with a non-empty scan, so `first()` never fails |
| Schedules.BusinessHoursDeparturesAndArrivalsAsWritten | cordapp/src/main/kotlin/com/luxoft/poc/mobi/service/MockTripProvisionDS.kt:391-417 | the method as written, through the optimiser that keeps only the first slot of each waiting time, returns exactly the first slot of `BusinessHoursSlots`, or nothing when that is empty |
| Schedules.BusinessHoursTieExample | cordapp/src/main/kotlin/com/luxoft/poc/mobi/service/MockTripProvisionDS.kt:442 | for a car office open 8 to 22, a two-hour trip and the window 10:00 to 13:00: <br>• the best slots, and `BusinessHoursSlots`, are the 10:00 and 11:00 departures; <br>• the code as written keeps only the 10:00 one |
| Schedules.BusinessHoursExampleWindow | cordapp/src/main/kotlin/com/luxoft/poc/mobi/service/MockTripProvisionDS.kt:392-410 | a 10:00 to 13:00 window lies inside the car office's hours: both ends are kept and the window is three hours |
| Schedules.Slots | cordapp/src/main/kotlin/com/luxoft/poc/mobi/service/MockTripProvisionDS.kt:322-328 | whatever the policy, every slot leaves no earlier than the requested departure, arrives by the requested arrival and spans at least the trip's duration |
| Schedules.DeparturesAndArrivals | cordapp/src/main/kotlin/com/luxoft/poc/mobi/service/MockTripProvisionDS.kt:327 | the dispatch to the three policies' methods computes exactly `Slots` |
| Schedules.ProviderSchedule | cordapp/src/main/kotlin/com/luxoft/poc/mobi/service/MockTripProvisionDS.kt:207-270 | the six providers' timetables and opening hours are valid schedules |
| TripOffers.TruncDiv | cordapp/src/main/kotlin/com/luxoft/poc/mobi/service/MockTripProvisionDS.kt:97 | the JVM's `Int` division truncates toward zero: the quotient brackets the dividend from below for non-negative dividends, and from above for negative ones |
| TripOffers.Share | cordapp/src/main/kotlin/com/luxoft/poc/mobi/service/MockTripProvisionDS.kt:124 | `((100 - d) * p) / (100 * n)` is, for a non-negative price, the largest amount whose `100 * n` multiple does not exceed `(100 - d) * p` |
| TripOffers.NonRefundableOffer | cordapp/src/main/kotlin/com/luxoft/poc/mobi/service/MockTripProvisionDS.kt:79-100 | the offer is an offer of the trip (offeror, offeree, validity, the trip as its one provision, payments from offeree to offeror totalling at most the price): <br>• two commitments, the first a non-refundable pre-payment due at `validBefore` of 80% of the price rounded down; <br>• it needs no guarantee |
| TripOffers.HalfGuaranteedOffer | cordapp/src/main/kotlin/com/luxoft/poc/mobi/service/MockTripProvisionDS.kt:105-135 | the offer is an offer of the trip: <br>• a pre-payment refundable before departure of 90/200 of the price; <br>• a post-payment due 30 minutes after `arriveBefore` to the trusted guarantors, of 95/200 of the price; <br>• it needs a guarantee exactly when the trusted set is non-empty |
| TripOffers.ThirdsGuaranteedOffer | cordapp/src/main/kotlin/com/luxoft/poc/mobi/service/MockTripProvisionDS.kt:140-178 | the offer is an offer of the trip: <br>• a non-refundable pre-payment of 80/300 of the price; <br>• a refundable pre-payment of 90/300 of the price; <br>• a guaranteed post-payment of 95/300 of the price, due 30 minutes after `arriveBefore` |
| TripOffers.OffersForTrip | cordapp/src/main/kotlin/com/luxoft/poc/mobi/service/MockTripProvisionDS.kt:64-70 | one offer per candidate without trusted guarantors and three with them, each an offer of that trip |
| TripOffers.CandidateTrips | cordapp/src/main/kotlin/com/luxoft/poc/mobi/service/MockTripProvisionDS.kt:46-58 | each slot becomes the requested route by the provider's transport, departing and arriving at the slot's times |
| TripOffers.ComposeOffers | cordapp/src/main/kotlin/com/luxoft/poc/mobi/service/MockTripProvisionDS.kt:38-74 | `composeOffers` returns exactly the offers of its request as specified by `Offers` |
| TripOffers.AddOffers | cordapp/src/main/kotlin/com/luxoft/poc/mobi/service/MockTripProvisionDS.kt:63-71 | the `forEach` appends, candidate by candidate, exactly that candidate's offers |
| TripOffers.NoOffersForOtherRequests | cordapp/src/main/kotlin/com/luxoft/poc/mobi/service/MockTripProvisionDS.kt:39-44 | a request that is not for a trip, or for a trip by another transport, gets no offer |
| TripOffers.OffersWithoutGuarantors | cordapp/src/main/kotlin/com/luxoft/poc/mobi/service/MockTripProvisionDS.kt:63-71 | without trusted guarantors the i-th offer is the i-th candidate's non-refundable offer |
| TripOffers.OffersWithGuarantors | cordapp/src/main/kotlin/com/luxoft/poc/mobi/service/MockTripProvisionDS.kt:63-71 | with trusted guarantors, offers `3i`, `3i+1` and `3i+2` are the i-th candidate's non-refundable, half-guaranteed and thirds offers |
| TripOffers.OffersMatchRequest | cordapp/src/main/kotlin/com/luxoft/poc/mobi/service/MockTripProvisionDS.kt:38-74 | for a trip by the provider's transport: <br>• there are `n` or `3n` offers for `n` slots; <br>• each offers, from the requested performer to the requested acceptor, a trip that covers the requested one |
| TripOffers.OffersCount | cordapp/src/main/kotlin/com/luxoft/poc/mobi/service/MockTripProvisionDS.kt:60-73 | there are as many offers as candidates without trusted guarantors, and three times as many with them |
| TripOffers.OfferOfTrip | cordapp/src/main/kotlin/com/luxoft/poc/mobi/service/MockTripProvisionDS.kt:63-71 | every composed offer is an offer of one of the candidate trips |
| TripOffers.CandidateCovered | cordapp/src/main/kotlin/com/luxoft/poc/mobi/service/MockTripProvisionDS.kt:46-58 | a candidate trip built from a slot of the window covers the requested trip |
| OfferingService.ExpiryKey | cordapp/src/main/kotlin/com/luxoft/poc/mobi/service/ProvisionOfferingService.kt:166 | the bucket key is the offer's `validBefore` rounded down to the second |
| OfferingService.Purged | cordapp/src/main/kotlin/com/luxoft/poc/mobi/service/ProvisionOfferingService.kt:194-203 | purging keeps exactly the buckets whose key is not before the cut-off, unchanged |
| OfferingService.Insert | cordapp/src/main/kotlin/com/luxoft/poc/mobi/service/ProvisionOfferingService.kt:169 | adding a hash: <br>• creates the bucket if absent and puts the hash in it; <br>• keeps every entry; <br>• adds nothing else |
| OfferingService.PurgeAsWritten | cordapp/src/main/kotlin/com/luxoft/poc/mobi/service/ProvisionOfferingService.kt:197-202 | the loop as written: <br>• when it completes it leaves the purged map; <br>• when it fails it has removed only the oldest key |
| OfferingService.PurgedNothing | cordapp/src/main/kotlin/com/luxoft/poc/mobi/service/ProvisionOfferingService.kt:199-201 | when the oldest key has not expired, the purge keeps everything |
| OfferingService.VerificationCache.constructor | cordapp/src/main/kotlin/com/luxoft/poc/mobi/service/ProvisionOfferingService.kt:155 | the cache starts empty |
| OfferingService.VerificationCache.PurgeExpiredEntries | cordapp/src/main/kotlin/com/luxoft/poc/mobi/service/ProvisionOfferingService.kt:194-203 | the corrected purge leaves exactly the buckets whose key is not before `now` rounded down to the second, each unchanged |
| OfferingService.VerificationCache.PurgeExpiredEntriesAsWritten | cordapp/src/main/kotlin/com/luxoft/poc/mobi/service/ProvisionOfferingService.kt:194-203 | the purge as written leaves what `PurgeAsWritten` says, failure included |
| OfferingService.VerificationCache.UpdateWith | cordapp/src/main/kotlin/com/luxoft/poc/mobi/service/ProvisionOfferingService.kt:161-173 | `updateWith` returns its argument; the cache becomes the purged cache with each offer's hash filed under its expiry key, in order |
| OfferingService.VerificationCache.Contains | cordapp/src/main/kotlin/com/luxoft/poc/mobi/service/ProvisionOfferingService.kt:180-189 | `contains` purges, then answers whether the offer's bucket in the purged cache holds its hash |
| OfferingService.DropExpired | cordapp/src/main/kotlin/com/luxoft/poc/mobi/service/ProvisionOfferingService.kt:199-200 | removing an expired key does not change what the purge keeps |
| OfferingService.PurgeIdempotent | cordapp/src/main/kotlin/com/luxoft/poc/mobi/service/ProvisionOfferingService.kt:194-203 | purging twice at the same instant is purging once |
| OfferingService.PurgeLater | cordapp/src/main/kotlin/com/luxoft/poc/mobi/service/ProvisionOfferingService.kt:194-203 | purging at `a` and then at a later `b` is purging at `b` |
| OfferingService.AcceptsIff | cordapp/src/main/kotlin/com/luxoft/poc/mobi/service/ProvisionOfferingService.kt:180-189 | an offer is accepted exactly when its expiry second is not before `now`'s and its bucket holds its hash |
| OfferingService.ExpiredRefused | cordapp/src/main/kotlin/com/luxoft/poc/mobi/service/ProvisionOfferingService.kt:195-200 | an offer whose expiry second is before `now`'s is refused whatever the cache holds |
| OfferingService.OneLastChance | cordapp/src/main/kotlin/com/luxoft/poc/mobi/service/ProvisionOfferingService.kt:195-196 | an offer that expired earlier in the current second is still accepted if its hash was filed |
| OfferingService.RepeatedContains | cordapp/src/main/kotlin/com/luxoft/poc/mobi/service/ProvisionOfferingService.kt:180-203 | asking again at the same instant gives the same answer: the first purge leaves nothing for the second to change |
| OfferingService.InsertedHolds | cordapp/src/main/kotlin/com/luxoft/poc/mobi/service/ProvisionOfferingService.kt:165-171 | after filing offers, a bucket holds a hash exactly when it held it before or some filed offer has that key and hash |
| OfferingService.IssuedOfferAccepted | cordapp/src/main/kotlin/com/luxoft/poc/mobi/service/ProvisionOfferingService.kt:161-189 | every offer handed out by `updateWith` is accepted later as long as its expiry second has not passed |
| OfferingService.AcceptedOnlyIfIssued | cordapp/src/main/kotlin/com/luxoft/poc/mobi/service/ProvisionOfferingService.kt:176-189 | starting empty, an accepted offer that no issued offer collides with on key and hash is one of the issued offers |
| OfferingService.InsertedKeeps | cordapp/src/main/kotlin/com/luxoft/poc/mobi/service/ProvisionOfferingService.kt:165-171 | filing offers never removes an entry |
| OfferingService.PurgeAsWrittenFailsIff | cordapp/src/main/kotlin/com/luxoft/poc/mobi/service/ProvisionOfferingService.kt:197-202 | the written purge fails exactly when the oldest bucket has expired and another bucket remains |
| OfferingService.PurgeAsWrittenExample | cordapp/src/main/kotlin/com/luxoft/poc/mobi/service/ProvisionOfferingService.kt:199-200 | with two expired buckets, the written purge fails after dropping only the first, while the intended purge empties the cache |
| OfferingService.ProvisionOfferingService.constructor | cordapp/src/main/kotlin/com/luxoft/poc/mobi/service/ProvisionOfferingService.kt:40-47 | the service starts with its key, its data-source configuration and a fresh empty cache |
| OfferingService.ProvisionOfferingService.Query | cordapp/src/main/kotlin/com/luxoft/poc/mobi/service/ProvisionOfferingService.kt:52-53 | `query` returns the composed offers and files all of them in the purged cache |
| OfferingService.ProvisionOfferingService.Sign | cordapp/src/main/kotlin/com/luxoft/poc/mobi/service/ProvisionOfferingService.kt:59-71 | `sign` returns the provider's signature exactly when there is at least one visible component and each one is a confirmation command, signed by the provider, of an offer the cache accepts; otherwise it fails |
| OfferingService.QueriedOfferConfirmed | cordapp/src/main/kotlin/com/luxoft/poc/mobi/service/ProvisionOfferingService.kt:52-71 | a queried offer, confirmed in a command the provider signs, passes `sign`'s check until its expiry second passes |
| OfferingService.Sanitize | cordapp/src/main/kotlin/com/luxoft/poc/mobi/service/ProvisionOfferingService.kt:94-98 | `replace("\\W".toRegex(), "_")` keeps the length, keeps every word character and turns every other character into `_` |
| OfferingService.SanitizeFacts | cordapp/src/main/kotlin/com/luxoft/poc/mobi/service/ProvisionOfferingService.kt:92-98 | a sanitized component: <br>• has only word characters and no dash; <br>• is unchanged when it already was word-only; <br>• sanitizes to itself |
| OfferingService.ConfigFileName | cordapp/src/main/kotlin/com/luxoft/poc/mobi/service/ProvisionOfferingService.kt:95-100 | the name has the five components' lengths plus four dashes |
| OfferingService.ConfigFile | cordapp/src/main/kotlin/com/luxoft/poc/mobi/service/ProvisionOfferingService.kt:101 | the file is that name followed by `.properties` |
| OfferingService.ConfigFileNameFields | cordapp/src/main/kotlin/com/luxoft/poc/mobi/service/ProvisionOfferingService.kt:78-100 | the file name splits at its dashes back into the five components: CN and OU (empty when absent), O and L, each sanitized, and C as is |
| OfferingService.OrganisationSanitized | cordapp-mock/src/main/kotlin/com/luxoft/poc/mobi/mock/data/X500Names.kt:30 | "Karl Friedrich Michael Benz" becomes "Karl_Friedrich_Michael_Benz" |
| OfferingService.LocalitySanitized | cordapp-mock/src/main/kotlin/com/luxoft/poc/mobi/mock/data/X500Names.kt:30 | "Karlsruhe/Baden-Baden" becomes "Karlsruhe_Baden_Baden" |
| OfferingService.CarProviderFileName | cordapp-mock/src/main/kotlin/com/luxoft/poc/mobi/mock/data/X500Names.kt:29-30 | the car provider's file name is "--Karl_Friedrich_Michael_Benz-Karlsruhe_Baden_Baden-DE" |
| OfferingService.ConsumerFileName | cordapp-mock/src/main/kotlin/com/luxoft/poc/mobi/mock/data/X500Names.kt:19-20 | the consumer's file is "--ArkS-SPB-RU.properties" |
| LedgerRecords.Participants | cordapp-contracts-states/src/main/kotlin/com/luxoft/poc/mobi/MonetaryStates.kt:79-115 | a guarantee's participants are exactly its requester; an obligation's are its payer and beneficiary |
| LedgerRecords.FetchIds | cordapp/src/main/kotlin/com/luxoft/poc/mobi/flow/AcceptOfferFlow.kt:131-133 | a query by identifiers returns each requested identifier at most once, and exactly those naming an unconsumed record of the kind in the node's vault |
| LedgerRecords.FetchAllIff | cordapp/src/main/kotlin/com/luxoft/poc/mobi/flow/AcceptOfferFlow.kt:131-134 | the size check passes exactly when the requested identifiers are distinct and all found; the result is then the request itself |
| LedgerRecords.AddedLookup | cordapp/src/main/kotlin/com/luxoft/poc/mobi/flow/AcceptOfferFlow.kt:102 | recorded outputs are found under their identifiers, and nothing else changes |
| LedgerRecords.AppliedLookup | cordapp/src/main/kotlin/com/luxoft/poc/mobi/flow/AcceptOfferFlow.kt:102 | a committed transaction: <br>• makes its outputs unconsumed; <br>• consumes its inputs; <br>• leaves every other record as it was |
| LedgerRecords.AppliedCreating | cordapp/src/main/kotlin/com/luxoft/poc/mobi/flow/MockInitAccountFlow.kt:57-63 | a transaction that consumes nothing and creates one record just adds it |
| LedgerRecords.AddedWellFormed | cordapp-contracts-states/src/main/kotlin/com/luxoft/poc/mobi/MonetaryStates.kt:18 | adding records with identifiers below the next fresh one keeps every record filed under its own identifier |
| LedgerRecords.AppliedWellFormed | cordapp-contracts-states/src/main/kotlin/com/luxoft/poc/mobi/MonetaryStates.kt:18 | committing such a transaction keeps the ledger well formed |
| GuaranteeFlows.GuaranteeIds | cordapp/src/main/kotlin/com/luxoft/poc/mobi/flow/ObtainPaymentGuaranteesFlow.kt:65-67 | the requester gets one identifier per amount |
| GuaranteeFlows.Obtain | cordapp/src/main/kotlin/com/luxoft/poc/mobi/flow/ObtainPaymentGuaranteesFlow.kt:54-95 | issuing guarantees: <br>• refused for an empty list, then for a non-positive amount, then unless the guarantor's vault holds the account; <br>• goes through exactly when none of these applies |
| GuaranteeFlows.GuaranteeOutputsLayout | cordapp/src/main/kotlin/com/luxoft/poc/mobi/flow/ObtainPaymentGuaranteesFlow.kt:98-112 | for each amount, in order, a reserve of that amount on the account, held by the guarantor, then a guarantee of the same amount from the guarantor to the requester backed by it; the reserves add up to the sum |
| GuaranteeFlows.GuaranteeOutputIds | cordapp/src/main/kotlin/com/luxoft/poc/mobi/flow/ObtainPaymentGuaranteesFlow.kt:98-112 | the new records take consecutive fresh identifiers |
| GuaranteeFlows.ObtainTxFacts | cordapp/src/main/kotlin/com/luxoft/poc/mobi/flow/ObtainPaymentGuaranteesFlow.kt:89-103 | the transaction: <br>• consumes exactly the account; <br>• re-creates it debited by the sum, with owner, participants and identifier unchanged; <br>• the new balance plus the reserves equals the old balance; <br>• all output identifiers are distinct |
| GuaranteeFlows.ObtainTxIdsDistinct | cordapp/src/main/kotlin/com/luxoft/poc/mobi/flow/ObtainPaymentGuaranteesFlow.kt:92-112 | the account and the new records carry distinct identifiers |
| GuaranteeFlows.ObtainResultIds | cordapp/src/main/kotlin/com/luxoft/poc/mobi/flow/ObtainPaymentGuaranteesFlow.kt:65-67 | the i-th returned identifier names the guarantee of `amounts[i]` from the guarantor to the requester |
| GuaranteeFlows.ReserveIdsOf | cordapp/src/main/kotlin/com/luxoft/poc/mobi/flow/RevokePaymentGuaranteesFlow.kt:69 | one reserve per guarantee, its `reserveId`, in order |
| GuaranteeFlows.AccountsOf | cordapp/src/main/kotlin/com/luxoft/poc/mobi/flow/RevokePaymentGuaranteesFlow.kt:79 | the `groupBy` keys: the accounts of the reserves, each once, and no other |
| GuaranteeFlows.RevokeOutputs | cordapp/src/main/kotlin/com/luxoft/poc/mobi/flow/RevokePaymentGuaranteesFlow.kt:96-100 | one output per account |
| GuaranteeFlows.Revoke | cordapp/src/main/kotlin/com/luxoft/poc/mobi/flow/RevokePaymentGuaranteesFlow.kt:39-101 | revoking an empty list is refused |
| GuaranteeFlows.RevokeSucceedsIff | cordapp/src/main/kotlin/com/luxoft/poc/mobi/flow/RevokePaymentGuaranteesFlow.kt:39-88 | revoking goes through exactly when: <br>• the list is non-empty; <br>• the guarantees are distinct and in the requester's vault; <br>• their reserves are distinct and in the guarantor's vault; <br>• so are the accounts behind those |
| GuaranteeFlows.RevokeCreditsEachAccount | cordapp/src/main/kotlin/com/luxoft/poc/mobi/flow/RevokePaymentGuaranteesFlow.kt:90-101 | a revocation: <br>• consumes all guarantees, reserves and accounts; <br>• creates only the accounts, one per distinct account, each credited with the total of its reserves and otherwise unchanged |
| GuaranteeFlows.RevokeTxShape | cordapp/src/main/kotlin/com/luxoft/poc/mobi/flow/RevokePaymentGuaranteesFlow.kt:90-101 | the revocation transaction is made of the guarantees, their reserves and their accounts as inputs, the credited accounts as outputs and one revoke command |
| GuaranteeFlows.CreditedOutputs | cordapp/src/main/kotlin/com/luxoft/poc/mobi/flow/RevokePaymentGuaranteesFlow.kt:96-100 | the i-th output is the i-th account with the reserved total added to its amount |
| GuaranteeFlows.SingleAccount | cordapp/src/main/kotlin/com/luxoft/poc/mobi/flow/RevokePaymentGuaranteesFlow.kt:79-80 | reserves on one account group under that account alone, with the sum of their amounts |
| GuaranteeFlows.ObtainedPair | cordapp/src/main/kotlin/com/luxoft/poc/mobi/flow/ObtainPaymentGuaranteesFlow.kt:98-112 | after issuing, the i-th reserve and guarantee are unconsumed under their fresh identifiers |
| GuaranteeFlows.ObtainedAccount | cordapp/src/main/kotlin/com/luxoft/poc/mobi/flow/ObtainPaymentGuaranteesFlow.kt:89-95 | after issuing, the account is unconsumed again, debited by the sum |
| GuaranteeFlows.IssuedGuaranteesFound | cordapp/src/main/kotlin/com/luxoft/poc/mobi/flow/RevokePaymentGuaranteesFlow.kt:43-46 | the requester's query finds every issued guarantee, and they point at the issued reserves |
| GuaranteeFlows.IssuedReservesFound | cordapp/src/main/kotlin/com/luxoft/poc/mobi/flow/RevokePaymentGuaranteesFlow.kt:71-80 | the guarantor's query finds every issued reserve; they all belong to the one account and add up to the amounts |
| GuaranteeFlows.RevokeIssued | cordapp/src/main/kotlin/com/luxoft/poc/mobi/flow/RevokePaymentGuaranteesFlow.kt:69-101 | revoking all guarantees of one issue consumes them, their reserves and the account, and re-creates the account credited with the sum |
| GuaranteeFlows.ObtainThenRevokeRestores | cordapp/src/main/kotlin/com/luxoft/poc/mobi/flow/RevokePaymentGuaranteesFlow.kt:96-100 | issuing guarantees and then revoking all of them goes through and restores the account's record exactly |
| OfferAcceptance.Materialise | cordapp/src/main/kotlin/com/luxoft/poc/mobi/flow/AcceptOfferFlow.kt:52-59 | one state per commitment |
| OfferAcceptance.ToGuarantee | cordapp/src/main/kotlin/com/luxoft/poc/mobi/flow/AcceptOfferFlow.kt:122-126 | the filtered states all need a guarantee |
| OfferAcceptance.ToGuaranteeMembers | cordapp/src/main/kotlin/com/luxoft/poc/mobi/flow/AcceptOfferFlow.kt:122-126 | the filter keeps exactly the post-payments with a non-empty trusted set |
| OfferAcceptance.GuaranteeCount | cordapp/src/main/kotlin/com/luxoft/poc/mobi/flow/AcceptOfferFlow.kt:122-126 | the filter keeps as many states as the offer has commitments needing a guarantee |
| OfferAcceptance.PairError | cordapp/src/main/kotlin/com/luxoft/poc/mobi/flow/AcceptOfferFlow.kt:144-148 | a pair matches exactly when the amounts agree and the guarantor is trusted; the amount is checked first |
| OfferAcceptance.PairingFirstMismatch | cordapp/src/main/kotlin/com/luxoft/poc/mobi/flow/AcceptOfferFlow.kt:140-148 | the pairing passes exactly when every pair matches, and fails with the mismatch of the first pair that does not |
| OfferAcceptance.Obligations | cordapp/src/main/kotlin/com/luxoft/poc/mobi/flow/AcceptOfferFlow.kt:149-157 | one obligation per pair, with consecutive fresh identifiers |
| OfferAcceptance.ToConsumeAndCreate | cordapp/src/main/kotlin/com/luxoft/poc/mobi/flow/AcceptOfferFlow.kt:117-160 | nothing is consumed or created when no commitment needs a guarantee; otherwise one obligation per such commitment |
| OfferAcceptance.Accept | cordapp/src/main/kotlin/com/luxoft/poc/mobi/flow/AcceptOfferFlow.kt:47-78 | only the offeree may accept |
| OfferAcceptance.PlanWithGuarantees | cordapp/src/main/kotlin/com/luxoft/poc/mobi/flow/AcceptOfferFlow.kt:131-159 | a successful guarantee side consumes exactly the named guarantees, paired in order, and creates their obligations |
| OfferAcceptance.PlanObligationIds | cordapp/src/main/kotlin/com/luxoft/poc/mobi/flow/AcceptOfferFlow.kt:149-157 | the obligations take consecutive fresh identifiers |
| OfferAcceptance.TxLayout | cordapp/src/main/kotlin/com/luxoft/poc/mobi/flow/AcceptOfferFlow.kt:75-78 | the outputs are the commitments in order, then the obligations, then the agreement listing both sets of identifiers |
| OfferAcceptance.AcceptOutputs | cordapp/src/main/kotlin/com/luxoft/poc/mobi/flow/AcceptOfferFlow.kt:63-78 | an accepted offer's outputs: <br>• each commitment in order, as a record of the same kind; <br>• then obligations only; <br>• then exactly one agreement, between offeror and offeree, listing the commitment and obligation identifiers in order, whose identifier is returned |
| OfferAcceptance.AcceptOutputIds | cordapp/src/main/kotlin/com/luxoft/poc/mobi/flow/AcceptOfferFlow.kt:63-104 | the outputs take consecutive fresh identifiers, the agreement's last; the commands are the acceptance and the confirmation |
| OfferAcceptance.AcceptWithoutGuarantees | cordapp/src/main/kotlin/com/luxoft/poc/mobi/flow/AcceptOfferFlow.kt:128 | an offer needing no guarantee is accepted whatever guarantees are named: nothing is consumed, and there is one output per commitment plus the agreement |
| OfferAcceptance.PlanSucceedsIff | cordapp/src/main/kotlin/com/luxoft/poc/mobi/flow/AcceptOfferFlow.kt:128-148 | the guarantee side succeeds exactly when the named guarantees are distinct, in the caller's vault, as many as needed, and each matches its commitment |
| OfferAcceptance.AcceptWithGuaranteesIff | cordapp/src/main/kotlin/com/luxoft/poc/mobi/flow/AcceptOfferFlow.kt:122-159 | when some commitment needs a guarantee: <br>• the offeree's acceptance goes through exactly when the named guarantees match; <br>• the guarantees are then the only inputs |
| OfferAcceptance.PlanObligation | cordapp/src/main/kotlin/com/luxoft/poc/mobi/flow/AcceptOfferFlow.kt:140-157 | obligation i comes from commitment i and guarantee i |
| OfferAcceptance.AcceptedObligation | cordapp/src/main/kotlin/com/luxoft/poc/mobi/flow/AcceptOfferFlow.kt:149-157 | obligation i of an accepted offer: <br>• payer and beneficiary are those of the i-th commitment needing a guarantee; <br>• guarantor and reserve are those of the i-th named guarantee; <br>• it refers to that commitment's record, which is among the outputs |
| LedgerFlows.Ledger.Commit | cordapp/src/main/kotlin/com/luxoft/poc/mobi/flow/AcceptOfferFlow.kt:102 | finality consumes the inputs, records the outputs and uses up the fresh identifiers |
| LedgerFlows.Ledger.InitAccount | cordapp/src/main/kotlin/com/luxoft/poc/mobi/flow/MockInitAccountFlow.kt:46-65 | opening an account adds exactly that account, owned by `owner` with the operator as its only participant, under a fresh identifier that is returned; nothing else changes |
| LedgerFlows.Ledger.ObtainPaymentGuarantees | cordapp/src/main/kotlin/com/luxoft/poc/mobi/flow/ObtainPaymentGuaranteesFlow.kt:52-120 | the flow either commits `Obtain`'s transaction and returns the guarantee identifiers, or fails with `Obtain`'s error and changes nothing |
| LedgerFlows.Ledger.CreateReservesAndGuarantees | cordapp/src/main/kotlin/com/luxoft/poc/mobi/flow/ObtainPaymentGuaranteesFlow.kt:98-112 | the loop over the amounts builds exactly the reserves and guarantees of `GuaranteeOutputs` and their identifiers |
| LedgerFlows.Ledger.RevokePaymentGuarantees | cordapp/src/main/kotlin/com/luxoft/poc/mobi/flow/RevokePaymentGuaranteesFlow.kt:37-108 | the flow either commits `Revoke`'s transaction, or fails with its error and changes nothing |
| LedgerFlows.Ledger.CreditAccounts | cordapp/src/main/kotlin/com/luxoft/poc/mobi/flow/RevokePaymentGuaranteesFlow.kt:96-100 | the `forEach` builds exactly the credited accounts |
| LedgerFlows.Ledger.ObligationsToCreateAndGuaranteesToConsume | cordapp/src/main/kotlin/com/luxoft/poc/mobi/flow/AcceptOfferFlow.kt:117-160 | the method computes exactly `ToConsumeAndCreate`, error cases included |
| LedgerFlows.Ledger.CollectObligations | cordapp/src/main/kotlin/com/luxoft/poc/mobi/flow/AcceptOfferFlow.kt:138-158 | the indexed loop fails with the first mismatch, or returns the obligation of every pair |
| LedgerFlows.Ledger.ComposeAcceptance | cordapp/src/main/kotlin/com/luxoft/poc/mobi/flow/AcceptOfferFlow.kt:47-78 | the composing step computes exactly `Accept` |
| LedgerFlows.Ledger.AssembleOutputs | cordapp/src/main/kotlin/com/luxoft/poc/mobi/flow/AcceptOfferFlow.kt:76-78 | the outputs added to the builder are the commitments, then the obligations, then the agreement |
| LedgerFlows.Ledger.AcceptOffer | cordapp/src/main/kotlin/com/luxoft/poc/mobi/flow/AcceptOfferFlow.kt:47-105 | accepting an offer: <br>• fails with `Accept`'s error; <br>• or fails because the offeror's service refuses the confirmation; <br>• or commits the acceptance and returns the agreement's identifier; <br>• the ledger is unchanged unless it commits |
| LedgerFlows.AccountFlowsVerify | cordapp-contracts-states/src/main/kotlin/com/luxoft/poc/mobi/MonetaryStates.kt:25-48 | the transactions that open an account, issue guarantees and revoke them each pass the account contract |

## Left out

- Corda plumbing is not modelled: sessions, `send`/`receive`, `CollectSignaturesFlow`, `SignTransactionFlow`, `FinalityFlow`, notarisation and progress tracking.
  - Signing and finality are one atomic commit step (`Ledger.Commit`).
  - `ftx.verify()` and `tx.verify(serviceHub)` are not modelled beyond the account contract's dispatch.
- The collection of offers from several providers (CollectOffersFlow.kt) is not part of this model.
- ConfirmOfferFlow.kt only forwards the filtered transaction to `sign`; that call is folded into `Ledger.AcceptOffer`.
- The responders' `checkTransaction` hooks are not modelled. They are empty or only read the guarantee identifiers, so they accept every transaction.
- The vault queries return records in the order the identifiers were requested. The positional pairing in `obligationsToCreateAndGuaranteesToConsume` relies on that order, which the query API does not promise.
- Vaults are one map of unconsumed records; a node sees a record when it is a participant.
  - Issuing guarantees does not check that the requester owns the account, because the source does not check it either.
- `Schedules.tripDistance` uses floating point, so the distance is a whole number of kilometres given by the caller.
- `listTrustedGuarantors` (network-map lookup, X.500 parsing, logging) is not modelled. The trusted set is a parameter.
- `loadConfigProperties` reads files with a fallback, and `configureDataSource` uses reflection. Only the file name is modelled. The properties `OfferValidityPeriod` (default 1800 minutes) and the provider class become parameters of the service.
- `LocalDateTime.now()` is a parameter, and one `now` serves all the calls that one operation makes.
- The offers' `hashCode` is a function that the model does not inspect, so two offers may collide.
- `synchronized` and concurrency are not modelled. Each cache operation runs alone.
- Kotlin `Int` overflow is not modelled. Amounts, prices, durations and `toInt()` of hour counts are unbounded integers.
- JVM `assert` in `MockInitAccountFlow` becomes a precondition: `Ledger.InitAccount` requires a positive amount. Its operator is a parameter rather than the node's identity.
- The contracts with empty `verify` bodies are not modelled: reserve, guarantee, obligation, commitment and agreement contracts.
- The schedules assume valid configuration:
  - a strict timetable has at least one departure hour, each in 0..23 (with no hours the source loops forever);
  - business hours satisfy `0 <= openAt < closeAt < 24`.
  - The six providers' schedules satisfy both (`Schedules.ProviderSchedule`).
- Action commitments and non-trip provisions are carried as opaque values.
- OfferingService.ProvisionOfferingService.Sign: checks each confirmation through `Contains`, so it can sign where the source's `sign` throws from the written purge. It also states the cache afterwards only as the purge at `now` of the cache before. Which `contains` calls run, and so which purges happen, depends on the short-circuit order of the component checks.
- LedgerFlows.Ledger.AcceptOffer: confirms through `Sign`, so it inherits the corrected purge: it can commit where the source's confirmation throws. It states the offeror's cache afterwards in the same way as `Sign`.
- Schedules.BusinessHoursSlots: is the policy with the corrected optimiser, which keeps every slot of least wait. The source's `departuresAndArrivals` returns only its first slot; `BusinessHoursDeparturesAndArrivalsAsWritten` states that result.
- Schedules.BusinessHoursDeparturesAndArrivals: calls the corrected optimiser, so on a tie in waiting time it returns more slots than the source (two instead of one in `BusinessHoursTieExample`).
- Schedules.Slots: its business-hours branch is `BusinessHoursSlots`, the corrected policy, not the source's first-slot-only result.
- Schedules.DeparturesAndArrivals: equals `Slots`, so it too returns the corrected business-hours slots.
- TripOffers.ComposeOffers: builds on `Slots`, so on a tie in waiting time a car or bike provider composes offers for every tied slot (2, or 6 with trusted guarantors, in the tie example) where the source composes them for the first only (1, or 3).
- OfferingService.VerificationCache.UpdateWith: purges with the corrected purge. The source's `updateWith` throws a concurrent-modification error instead whenever `PurgeAsWrittenFailsIff` says the written purge fails.
- OfferingService.VerificationCache.Contains: purges with the corrected purge. The source's `contains` throws instead of answering in the same cases.
- OfferingService.ProvisionOfferingService.Query: inherits both corrections. It composes offers with the corrected business-hours policy and files them after the corrected purge, where the source's `query` may compose fewer offers or throw.
- GuaranteeFlows.Revoke: its own contract states only the refusal of an empty list. `RevokeSucceedsIff` states exactly when it succeeds, and `RevokeCreditsEachAccount` and `RevokeTxShape` state what the success returns; which `FlowError` each other failing input yields is not stated beyond the order in which the checks are made.
- OfferAcceptance.Accept: its own contract states only the refusal of a caller who is not the offeree. `AcceptWithoutGuarantees` and `AcceptWithGuaranteesIff` state exactly when it succeeds, and `AcceptOutputs`, `AcceptOutputIds` and `AcceptedObligation` state what the success returns; which `FlowError` each other failing input yields is stated only through `ToConsumeAndCreate` and `PairingFirstMismatch`.

## Findings

| source | as written | input that shows it | evidently intended | confidence | as-written member | corrected member |
|---|---|---|---|---|---|---|
| cordapp/src/main/kotlin/com/luxoft/poc/mobi/service/ProvisionOfferingService.kt:199-200 | the purge iterates the key set of the sorted map and removes expired keys through the map itself; the key-set iterator then fails with a concurrent-modification error on its next step | buckets at 1 s and 2 s, both expired at 3 s: the first is removed, then the iteration throws, so `contains` and `updateWith` fail and the 2 s bucket stays | remove every expired bucket, oldest first, and stop at the first live one | not executed | OfferingService.VerificationCache.PurgeExpiredEntriesAsWritten, OfferingService.PurgeAsWrittenExample | OfferingService.VerificationCache.PurgeExpiredEntries |
| cordapp/src/main/kotlin/com/luxoft/poc/mobi/service/MockTripProvisionDS.kt:442 | `byWaitingTime[waitingTime]!! + Pair(departure, arrival)` builds a new list and discards it, so each bucket keeps only its first slot | car office 8 to 22, two-hour trip, window 10:00 to 13:00: both the 10:00 and 11:00 departures wait 0 hours, but only the 10:00 one is returned | return every slot sharing the least waiting time | not executed | Schedules.OptimizeWithBusinessHoursAsWritten, Schedules.BusinessHoursDeparturesAndArrivalsAsWritten, Schedules.BusinessHoursTieExample | Schedules.OptimizeWithBusinessHours |
