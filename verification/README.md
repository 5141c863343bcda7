# Taxi dispatch: a verified model

A Dafny model of the core of a ride-hailing backend: geographic sharding, the live driver index, surge pricing,
matching, and the lifecycle of a trip from the API handlers through the event stream to the durable table.
`dafny verify dfyconfig.toml` checks all of it.

| file | models |
|---|---|
| `Models.dfy` | the entities the services share |
| `Region.dfy` | `internal/region`: the geohash loop and `Neighbors`, proved against a closed form |
| `RegionCells.dfy` | what a geohash means: a reference decoder, cells, prefixes, order |
| `GeoIndex.dfy` | `internal/geo` as values: the index as a replay of pings, evictions and time |
| `GeoSearch.dfy` | over-fetch, prune, sort, truncate, as facts about lists of candidates |
| `GeoStore.dfy` | `internal/geo` as an object; answers characterised by the history of pings; where they fall short; `internal/match` |
| `Surge.dfy` | `internal/surge`: the ratio, bursts, the expiring counter |
| `Trips.dfy` | `internal/trip`: the lifecycle graph and the transactional projection with its audit log |
| `Lifecycle.dfy` | one trip under any interleaving of handlers, split at get, put and emit |
| `Serial.dfy` | the same when handlers do not overlap, and that overlap is exactly what breaks it |
| `Pipeline.dfy` | many trips, a partitioned topic, a worker that applies, skips and rewinds |
| `Worker.dfy` | `cmd/tripworker`: the consume loop and the notifications |
| `Api.dfy` | `cmd/api`: ride requests and transitions as methods that run the pipeline's steps |
| `Kafkax.dfy` | `internal/kafkax`: `itoa`, in its fixed buffer |

How it is put together. A run is any sequence of steps, and a step that is not enabled changes nothing, so a
statement about every sequence is one about every run. Methods that change state are proved against functions of
the old state, and the main results are lemmas about those functions. One key ties the parts together: the region
of a coordinate is the suffix of the geo set, the demand counter's key, the trip's region and the message key that
fixes the partition. Errors of Redis, Kafka and Postgres are inputs of the operations (`ok` flags, faults, failed
replies). Outside facts are parameters: the clock, trip ids, the hash from message key to partition (`route`), the
distance Redis computes (`dist`), and its search replies, which are either an error or some right answer.

## Where the code does not do what its comments say

The model follows the code. Each point has an input that shows the failure, and the exact condition under which what
is meant holds.

- A path of lifecycle states (internal/trip/trip.go:21-22). The check and the cache write are separate steps
  (cmd/api/main.go:189 and cmd/api/main.go:204). `Serial.CancelledThenStarted`: two requests at once, with nothing
  failing, set a cancelled trip in progress. `Serial.PathSurvivesIff`: in any run that has lost no event, once a
  transition has passed its check, the stream stays a path in every continuation that loses no event, and in which
  no further handlers overlap, if and only if it was a path, no other handler of the trip was in flight, and its
  last event was the cached state's. Where no handlers overlapped before, that no other is in flight is enough
  (`Serial.PathSurvivesIffAlone`). `Lifecycle.OverForGoodIff`: a terminal trip can be written again if and only
  if a handler is yet to write.
- A driver just over a shard boundary is found (internal/geo/geo.go:64-66, internal/region/region.go:23-29). Only
  four-character sets are written, so the coarse set is always empty (`GeoStore.CoarseIsEmpty`).
  `GeoFailures.NearDriverMissed`: a driver some metres away, across the Greenwich meridian, is missed.
  `GeoStore.FoundIffSameCell`: a driver who keeps to another cell is never found; one in range who keeps to one
  cell is found if and only if it is the rider's, given that fewer than k other fresh drivers, and fewer than 3k
  other members, in range are no farther, k being the search's limit.
- A candidate stands where last heard from (internal/geo/geo.go:64-66). `Upsert` does not leave the old cell
  (internal/geo/geo.go:36-41). `GeoFailures.OfferedWhereNotStanding`: a driver who has crossed a boundary is still
  offered at the old position. `GeoStore.StandsWhereHeardIff`: a candidate last heard from within 15 s stands there
  if and only if that was in the rider's cell.
- A driver who is mid-trip is not considered (internal/geo/geo.go:28-30). Assignment does not touch the index
  (cmd/api/main.go:167-175). `Match.SecondRiderSameDriver`: two riders in a row are matched to one driver.
  `Match.MatchedStaysWhile`: as long as a matched driver sends no further ping, the driver stays eligible if and
  only if the last ping is less than 15 s old. After further pings, `GeoStore.EligibleIff` and `GeoStore.NamedIff`
  say who is eligible and who is named.
- A failed persist is retried on restart (cmd/tripworker/main.go:74). The loop reads on, and later commits cover the
  failed message. `Api.FailedPersistIsNotRetried`: a trip assigned in cache and log whose row stays REQUESTED.
  `Pipeline.RowIsCurrentIff`: in every run, a row is what the trip's last logged event says if and only if that
  event is the trip's last to have been applied. `Pipeline.RowIsCurrentIffPersisted`: as long as the worker is not
  set back, and the last event does not repeat an earlier one, a row it has caught up with is current if and only
  if the last event did not fail to persist. Without overlapping handlers no event repeats another
  (`Pipeline.SerialIsNew`).
- The demand counter is a sliding window (internal/surge/surge.go:31-33). It is the length of the last burst,
  the requests since the last minute without one.
  `Surge.CounterOutlivesWindow`: three requests fifty seconds apart count three when the window holds two.
  `Surge.CounterIsWindowIff`: it is the window's count if and only if the whole burst lies within the window. It is never
  less (`Surge.CounterCoversWindow`).

## Model

Below, k is the limit of a search.

| member | source | states |
|---|---|---|
| Region.Geohash | internal/region/region.go:43-80 | The loop returns the closed form: base-32 text of the bit interleave, longitude first, of both floor-quantised coordinates; empty for a precision of 0 or less |
| Region.Subdivide | internal/region/region.go:53-70 | One turn keeps both ranges the true bisections, and its branch is the next bit of the code |
| Region.Pack | internal/region/region.go:71-77 | OR-ing bits in and writing a character every fifth keeps text and pending bits together spelling the code; the alphabet is never indexed out of range (also internal/region/region.go:56) |
| Region.BisectIsSlot | internal/region/region.go:54-60 | After n halvings the range is exactly the slot of width 1/2^n that the quantised coordinate numbers |
| Region.NextBit | internal/region/region.go:53-69 | Comparing with the midpoint of the axis whose turn it is yields the next bit of the interleave |
| Region.ScaleIsProduct | internal/region/region.go:54-60 | The quantiser multiplies by 2^n |
| Region.Neighbors | internal/region/region.go:26-40 | Always two keys: the own cell first, then the coarser one |
| RegionCells.HashNamesCell | internal/region/region.go:43-80 | A point hashes to a string exactly when it lies, moved onto the map, in the cell that string decodes to |
| RegionCells.DecodeAfterEncode | internal/region/region.go:43-80 | Decoding a hash gives a cell of 360/2^a by 180/2^b degrees that holds the point |
| RegionCells.EncodeAfterDecode | internal/region/region.go:43-80 | Encoding the centre of any hash's cell gives the hash back |
| RegionCells.HashOfClamped | internal/region/region.go:55-69 | A coordinate off the map hashes as the nearest one on it |
| RegionCells.CoarserIsPrefix | internal/region/region.go:30-33 | A hash of lower precision is a prefix of every finer one |
| RegionCells.AlphabetAscends | internal/region/region.go:11 | The alphabet ascends |
| RegionCells.HashCharacters | internal/region/region.go:11 | Every character of a hash is a digit or a lower-case letter other than a, i, l and o |
| RegionCells.KnownRegion | internal/region/region.go:19-21 | The region of every point of one cell in the north of Jutland is u4pr |
| RegionCells.RegionIsColumnAndRow | internal/region/region.go:16-21 | Points share a key exactly when, moved onto the map, they share a slot of 360/1024 degrees of longitude and one of 180/1024 of latitude |
| GeoStore.SameRegionIff | internal/geo/geo.go:32 | The same for the region the index, the counters and the trips use |
| RegionCells.TextOrder | internal/region/region.go:11 | Hashes of one length compare as their codes do, both ways |
| RegionCells.HashMonotone | internal/region/region.go:43-80 | Going north or east (or both) never moves the hash back |
| RegionCells.InterleaveParts | internal/region/region.go:53-70 | Splitting a code into slot numbers and interleaving them gives the code back |
| RegionCells.PartsOfInterleave | internal/region/region.go:53-70 | Interleaving slot numbers and splitting gives them back |
| GeoIndex.MembershipByHistory | internal/geo/geo.go:31-62 | A driver is in a cell's set at p exactly when the last of the driver's pings in the cell and evictions from it is an available ping at p |
| GeoIndex.KeyByHistory | internal/geo/geo.go:42-50 | A driver's hash is exactly the trace of the driver's last ping anywhere |
| GeoIndex.FreshByHistory | internal/geo/geo.go:113-116 | A driver is fresh exactly when the last ping was an available one less than 15 s ago |
| GeoIndex.LegalKeeps | internal/geo/geo.go:31-62 | Over every run of the code's operations only full-length sets are written, members lie in their set's cell, and a live hash vouches for the member it names |
| GeoSearch.FreshOrStale | internal/geo/geo.go:85-97 | Each candidate found is kept or its driver evicted, never both, and nobody else is kept or evicted |
| GeoSearch.AnswerIsSound | internal/geo/geo.go:85-103 | An answer holds fresh members of the cell in range at their true distance, nearest first, each driver once, at most `limit` |
| GeoSearch.ExactOrProgress | internal/geo/geo.go:77-103 | An answer is a true top-k, or the search found at least 2k+1 stale members |
| GeoStore.Store.Upsert | internal/geo/geo.go:31-53 | One ping more at the region of its position, or if the transaction fails nothing |
| GeoStore.Store.UpsertIn | internal/geo/geo.go:33-52 | Available: the set and the hash with a 15 s TTL are written together; otherwise both are dropped |
| GeoStore.Store.Remove | internal/geo/geo.go:56-62 | The member of that one cell and the driver's hash go, and nothing else |
| GeoStore.Store.Supply | internal/geo/geo.go:108-111 | The number of drivers whose last word in the region was an available ping, however long ago |
| GeoIndex.SupplyByHistory | internal/geo/geo.go:108-111 | A region's set holds exactly those drivers |
| GeoStore.Store.Fresh | internal/geo/geo.go:113-116 | True exactly when the driver's last ping, in any cell, was an available one less than 15 s ago |
| GeoStore.Store.Prune | internal/geo/geo.go:85-97 | Keeps the fresh candidates in order and evicts exactly the others |
| GeoStore.Store.Nearest | internal/geo/geo.go:67-104 | Sound; a true top-k or 2k+1 evictions; fails only with a search, and then has only evicted stale members in range |
| GeoStore.SortByDistance | internal/geo/geo.go:99 | A sorted rearrangement |
| GeoStore.CoarseIsEmpty | internal/region/region.go:30 | The coarse set, whose key is the first three characters of the region's, is empty in every reachable index (also internal/geo/geo.go:32-41) |
| GeoStore.AnswersByHistory | internal/geo/geo.go:67-104 | Every candidate's last ping was an available one within 15 s; a driver heard from so in the rider's cell and range is missing only by the limit or because 2k+1 stale members were evicted |
| GeoStore.NamedIff | internal/geo/geo.go:64-104 | An answer names only eligible drivers: every one than whom fewer than k eligible others and fewer than 3k other members in range are no farther, and none than whom k of the former or 3k of the latter are nearer |
| GeoStore.EligibleIff | internal/geo/geo.go:85-97 | A driver last heard from within 15 s as available, whose last word in the cell was an available ping in range, is exactly a fresh member in range |
| GeoSearch.RankedFetches | internal/geo/geo.go:77-103 | Over-fetching 3k reaches every fresh driver in range than whom fewer than 3k members are no farther, and nobody than whom 3k are nearer |
| GeoStore.FoundIffSameCell | internal/geo/geo.go:64-66 | A driver who keeps to another cell is never found; one in range who keeps to one cell is found exactly when it is the rider's, if fewer than k other fresh drivers and fewer than 3k other members in range are no farther (also internal/region/region.go:23-29) |
| GeoStore.StandsWhereHeardIff | internal/geo/geo.go:36-41 | A candidate last heard from within 15 s stands where that was exactly when that was in the rider's cell |
| GeoFailures.NearDriverMissed | internal/geo/geo.go:64-66 | An available driver just heard from, metres from the rider across a cell boundary, is not in the answer |
| GeoFailures.OfferedWhereNotStanding | internal/geo/geo.go:36-41 | Every answer to a search at a position that a driver has left across a boundary offers that driver as standing there |
| RegionCells.MeridianIsBoundary | internal/region/region.go:43-80 | Points on either side of the Greenwich meridian never share a hash, however near |
| GeoStore.CandidatesAreLocal | internal/geo/geo.go:69-98 | Every candidate's position hashes to the rider's region, and a candidate implies a supply of at least one |
| GeoStore.PruningShrinks | internal/geo/geo.go:86-89 | What a search evicts is exactly what the count of stale members in range goes down by |
| GeoStore.InexactAnswersRunOut | internal/geo/geo.go:67-104 | Of any searches with nothing in between, only finitely many answers are not a true top-k: their number times 2k+1 is at most the count of stale members in range at first |
| Match.Best | internal/match/match.go:27-39 | The head of the shortlist; no match exactly when the shortlist is empty; an error exactly when a search fails |
| Match.BestIsNearest | internal/match/match.go:35-38 | A fresh driver in range than whom fewer than thirty other members are no farther means there is a match and it is no farther |
| Match.MatchedStaysWhile | cmd/api/main.go:167-175 | A matched driver who sends no further ping stays eligible for the next rider exactly until 15 s after the last one, whatever else happens to the index |
| GeoStore.EligibleWhile | internal/geo/geo.go:48-50 | The same for any driver in range with a recent ping |
| Match.SecondRiderSameDriver | cmd/api/main.go:144-167 | Two riders one after the other are both matched to the only driver |
| Surge.FactorIsClampedRatio | internal/surge/surge.go:52-68 | For any demand and supply, 0 included: 1 exactly when demand is at most supply, 3 exactly when it is at least three times supply and not 0, the ratio in between |
| Surge.FactorOrder | internal/surge/surge.go:52-68 | More demand never lowers the price and more supply never raises it, supply 0 included |
| Surge.FactorScales | internal/surge/surge.go:59 | Scaling demand and supply alike changes nothing |
| Surge.CounterIsBurst | internal/surge/surge.go:34-48 | A region's counter reads exactly the number of its requests from which on each was followed within 60 s by another or by now |
| Surge.EngineCountsBurst | internal/surge/surge.go:31-48 | So in every state of the engine; it is at least the count of the last 60 s, and exactly that when the whole burst lies within them |
| Surge.BurstGrows | internal/surge/surge.go:36-37 | One more request makes the burst one longer |
| Surge.QuietIsFlat | internal/surge/surge.go:54-56 | With no request in the last 60 s the price is 1, whatever the supply |
| Surge.CounterIsWindowIff | internal/surge/surge.go:31-48 | The burst counts what the last 60 s hold exactly when all of it lies within them |
| Surge.CounterOutlivesWindow | internal/surge/surge.go:31-40 | Three requests fifty seconds apart are counted as three when the last 60 s hold two |
| Surge.CounterCoversWindow | internal/surge/surge.go:31-48 | The counter is never below the count of the last 60 s, nor the price below the one that would give |
| Surge.OwnRequestCounts | cmd/api/main.go:141-142 | A request is counted before it is priced, so zero supply quotes the maximum |
| Surge.Engine.RecordDemand | internal/surge/surge.go:34-40 | One request more at its region, or after an ignored error none, and every region's counter still the trace of its requests |
| Surge.Engine.Multiplier | internal/surge/surge.go:43-48 | The factor of the region's last burst and its indexed drivers, a failed read counting as zero; 1 where nobody has asked for 60 s |
| Trips.ReachesIffRankRises | internal/trip/trip.go:23-32 | The lifecycle has no cycle, and one state reaches another exactly when it ranks above |
| Trips.LifecycleMoves | internal/trip/trip.go:23-27 | The six legal transitions, and no other |
| Trips.Store.Apply | internal/trip/trip.go:78-105 | Upsert and audit entry both happen or, whichever step fails, neither does |
| Trips.AuditDeterminesRow | internal/trip/trip.go:85-100 | Under any transactions a row exists exactly when the trip has audit entries, its state is the last entry's and its driver the last that is not empty (also internal/db/schema.sql:18-25) |
| Trips.ColumnsOfRow | internal/trip/trip.go:85-93 | After any transactions a trip's row has the rider and region of its first event applied, the state and surge of its last, and the last driver named |
| Trips.AuditIsTheEvents | internal/trip/trip.go:98-100 | The audit log has one entry for each event applied, each time, in order |
| Lifecycle.EveryInterleaving | cmd/api/main.go:157-175 | For any number of overlapping handlers, failures, crashes and expiries: identity, price and creation time never change, REQUESTED is first or absent, and each cache write after the first is a legal successor of an earlier one (also cmd/api/main.go:189-208) |
| Lifecycle.CompletedAfterStarted | internal/trip/trip.go:23-27 | Every COMPLETED write has an earlier IN_PROGRESS one (also cmd/api/main.go:198-204) |
| Lifecycle.EveryWriteIsSent | cmd/api/main.go:167-175 | Unless an event was lost, every trip put in the cache is in the stream or in the hands of a handler about to send it (also cmd/api/main.go:204-208) |
| Lifecycle.CrashIsFailure | cmd/api/main.go:162-175 | A handler that crashes is to everyone else one whose next put or event failed |
| Lifecycle.OverStays | cmd/api/main.go:189-208 | A terminal or expired trip with no write pending is never written again, and what has expired does not return |
| Lifecycle.OverForGoodIff | cmd/api/main.go:189-208 | It is written again in some continuation exactly when a write is pending; with no handler in flight nothing changes any more |
| Serial.SerialStream | cmd/api/main.go:157-175 | Without overlap: at most four events, in reachability order, none after a terminal one, a path from REQUESTED if none was lost; the cache never holds REQUESTED and agrees with the last event (also internal/trip/trip.go:23-32, cmd/api/main.go:198-208) |
| Serial.PathSurvivesIff | cmd/api/main.go:189-204 | In any run that has lost no event, however handlers overlapped: after a check is passed, the stream stays a path in every continuation that loses no event and overlaps no further handlers exactly when it was a path, no other handler was in flight, and its last event had the cached state |
| Serial.PathSurvivesIffAlone | cmd/api/main.go:189-204 | In such a run without overlap before the check, exactly when no other handler was in flight |
| Serial.CancelledThenStarted | cmd/api/main.go:189-204 | Two overlapping requests on an assigned trip, nothing failing, log CANCELLED then IN_PROGRESS and leave the trip in progress |
| Pipeline.ReachableInv | cmd/tripworker/main.go:58-77 | Every run of handlers, deliveries, failures and rewinds keeps: each trip's stream lies in order in its region's partition only; the database is the fold of what was applied; and where nothing of a trip is left to read and its last event persisted, that is the last applied (also internal/kafkax/kafkax.go:57-78) |
| Pipeline.StreamsStayHome | internal/kafkax/kafkax.go:54-66 | An event lies in its region's partition, and a trip's events there are its stream in order (also cmd/api/main.go:251-254) |
| Pipeline.FoldKeepsLast | internal/trip/trip.go:85-93 | Folding a log leaves a row that is the trip's last event with the last driver named |
| Pipeline.DrainedRowIsFold | cmd/tripworker/main.go:58-77 | However partitions interleave, fail and are rewound, once the trip's partition is read to the end and its last event persisted when last read, its row is the in-order fold of the log |
| Pipeline.DrainedTablesAgree | cmd/tripworker/main.go:58-77 | Two workers that have read one topic to the end in that sense, in any orders, hold the same table |
| Pipeline.TopicDeterminesTable | cmd/tripworker/main.go:58-77 | Where no transaction fails, interleavings and rewinds alone never show: the drained table depends on the topic only |
| Pipeline.RestartRereads | internal/kafkax/kafkax.go:69-78 | A worker set back reads and persists every event from there on once more: the audit log gains exactly those entries, and a table that was drained with no last event failing stays as it was (also cmd/tripworker/main.go:58-77) |
| Api.RestartAuditsTwice | cmd/tripworker/main.go:58-77 | A run in which one event is sent and two audit entries tell of it |
| Pipeline.LastEventHeals | cmd/tripworker/main.go:72-75 | Whatever was passed over, if the last logged event is the last applied the row equals it in every business field (also internal/trip/trip.go:88-93) |
| Pipeline.RowIsCachedIff | internal/trip/trip.go:78-105 | In every run, once the log is drained with the trip's last event persisted, the row is the cached trip in every business field exactly when that trip's event was the last sent (also internal/trip/trip.go:41-61) |
| Pipeline.CacheAndTableAgree | internal/trip/trip.go:41-61 | Which is so when handlers do not overlap, none is in flight and no event was lost (also internal/trip/trip.go:78-120) |
| Pipeline.RowIsCurrentIffPersisted | cmd/tripworker/main.go:72-75 | Without rewinds, once caught up with a trip whose last event is not a repeat, the row equals that event exactly when its transaction did not fail |
| Pipeline.SerialIsNew | cmd/api/main.go:189-208 | Without overlapping handlers a trip's last event is never a repeat |
| Pipeline.RowIsCurrentIff | cmd/tripworker/main.go:72-75 | In every run, overlapping or not, the row equals the last logged event exactly when that is the trip's last to have been applied |
| Worker.Consume | cmd/tripworker/main.go:58-97 | The store gets, in order, the messages that decode and whose transactions succeed, and exactly those are notified of |
| Worker.EveryEventNotifies | cmd/tripworker/main.go:82-113 | Any event a handler logs notifies the rider, and from assignment on the driver, and no one else |
| Worker.NoticesInOrder | cmd/tripworker/main.go:76 | Each event applied is notified of once, after those before it |
| Worker.TextTellsCancelled | cmd/tripworker/main.go:109-110 | A notice speaks of cancellation exactly when its event is CANCELLED |
| Worker.TextTellsCompleted | cmd/tripworker/main.go:107-108 | Of completion exactly when it is COMPLETED |
| Worker.TextTellsStarted | cmd/tripworker/main.go:105-106 | Of the start exactly when it is IN_PROGRESS |
| Worker.TextTellsAssigned | cmd/tripworker/main.go:103-104 | Of assignment exactly when it is ASSIGNED |
| Worker.ConsumingDelivers | cmd/tripworker/main.go:58-77 | The loop over a partition's next messages is that many deliveries of the pipeline |
| Api.Server.HandleRide | cmd/api/main.go:134-181 | Each outcome with its cause, and field by field the trip replied, cached and sent: the rider's, in the request's region, at the quote; assigned to the best of the shortlist, which is fresh, in the region, within 5 km, and no farther than any fresh driver within reach; the quote is the factor of the burst this request joins and the supply; with no driver in the region nobody is matched, and the quote is 3 if the request was counted and the count read; a failed search makes no trip and evicts at most stale members in range |
| Api.MatchIsFair | cmd/api/main.go:144-167 | What makes a match fair, with its limits written out: 5 km, ten candidates, thirty members |
| Api.Server.Transition | cmd/api/main.go:185-211 | Lookup error, not found, conflict, failed put or moved, each with the new cache and topic; a run of pipeline steps |
| Api.Server.Emit | cmd/api/main.go:241-258 | The event carries the trip to the partition of its region; a failed write loses it and nothing else |
| Api.Server.Put | internal/trip/trip.go:41-49 | The trip is cached under its own id, or nothing changes |
| Api.Server.Expire | internal/trip/trip.go:46-48 | A cached trip may go at any time; the rest stays |
| Api.Server.Wait | internal/geo/geo.go:48-50 | Time passes for the driver hashes and the demand counters, and all the server keeps is kept |
| Api.Server.LocationPing | cmd/locationworker/main.go:59-61 | A ping indexed in between keeps all the server keeps |
| Api.MatchIsLocal | cmd/api/main.go:144-153 | A matched driver is counted in the region's supply, at a position in the trip's region |
| Api.TableHasCachedTripIff | cmd/api/main.go:167-208 | After any requests, transitions, expiries and readings, once a cached trip's events are read and the last persisted, the table has it as cached exactly when its own event was the last sent, as it is if none was lost (also cmd/tripworker/main.go:58-77) |
| Api.FailedPersistIsNotRetried | cmd/tripworker/main.go:72-75 | A run that ends with the trip assigned in cache and log, the log read to its end, and the row still REQUESTED; reading on changes nothing |
| Api.TopicIsOrderly | cmd/api/main.go:157-208 | Each trip's events in the server's topic have the shape of an orderly stream |
| Kafkax.Itoa | internal/kafkax/kafkax.go:84-96 | The loop returns the decimal numeral, never leaving its 20 bytes, and nothing for a negative number |
| Kafkax.NumeralRoundTrip | internal/kafkax/kafkax.go:84-96 | The numeral has no leading zero but "0" itself, and reading it gives the number back |
| Kafkax.KnownNumeral | internal/kafkax/kafkax.go:84-96 | That of 9092 is "9092" |
| Kafkax.Int64Fits | internal/kafkax/kafkax.go:88 | A positive 64-bit number has fewer digits than the buffer has bytes |

## Left out

- HTTP and JSON decoding, CORS, logging, WebSockets, signals, connection retries, topic creation, configuration: I/O around the logic. A request arrives decoded. `Pipeline`'s logs hold the messages that can be decoded; `Worker.Consume` skips the others.
- The web and mobile apps: user interface.
- The ingest endpoint's semaphore and the location worker's loop, which does nothing but call `Upsert`.
- Reading a trip or a quote over HTTP: one call each to what is modelled.
- Floating point: coordinates, distances and prices are real numbers. Every midpoint of the geohash at the precisions used is exact in float64. NaN and infinities are left out.
- The rounding of positions that Redis does: a member keeps the position of its ping.
- Distance on the sphere: an arbitrary function, of which only the order is used.
- Time to live to the instant: a driver's hash, or a demand counter, is live while the clock is before its expiry.
- Api.Server.Expire: does not count the hour; a cached trip may expire at any time, which covers every timing.
- GeoStore.Store.Nearest: one step, so no update falls between its freshness checks and its evictions.
- GeoStore.Store.Prune: an existence check does not fail; the source reads an error as stale, and would evict a live driver.
- Surge.Engine.RecordDemand: both commands take effect or neither; they are not a transaction in the source, where an increment whose expiry fails would leave a counter that lives on, or one that never expires.
- Api.Server.HandleRide: one atomic call, with a new trip id and drivers whose ids are not empty. Overlapping handlers are the subject of `Lifecycle` and `Serial`, on values.
- Trips.Store.Apply: a commit that fails has not happened; the id and clock columns are left out.
- Wall-clock fields of events and rows (`At`, `created_at`, `updated_at`): not part of what is compared.
- Pipeline.ReachableInv: one reader at a time for each partition; two workers reading the same one at once are left out.
- Producer retries that append an event twice: a write to the topic appends once or fails.
- GeoStore.SortByDistance: the library's sort is some sorting algorithm; this one is insertion sort, and nothing depends on the order of ties.
