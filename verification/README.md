# ORVOLT: delivery, power advice and billing, verified

ORVOLT runs electric-vehicle chargers. An edge agent spools telemetry on flash and forwards it
over an unreliable link; the cloud ingests it, projects charging sessions into bills, and advises
how much power each connector may draw. This project models the parts of that path where data or
money could go missing, and proves what they promise.

| file | models |
|---|---|
| `Records`, `SegmentLog`, `SegmentNumbers` | the record format and what a spool directory means |
| `EdgeDevice`, `CrashPoints` | flash and uplink as a crash sees them: every single change is a crash point |
| `SpoolSteps`, `Spool` | the spool: open, append, evict, read, commit |
| `Forwarder` | the drain loop against a sink that takes records one by one |
| `Ledger`, `Delivery` | whole runs with failures, restarts and crashes, and what they amount to |
| `PowerLoss` | what happens if the operating system also loses bytes it had not written |
| `PowerSharing`, `PowerAdvice` | sharing a site's power between its connectors |
| `Sessions` | the charging-session projection and its event log |
| `Ingest` | the ingest runner between broker, dead-letter stream and telemetry table |
| `Gateway` | the OCPP gateway's transaction steps and session identifiers |
| `EndToEnd` | edge, broker, ingest and table together: repeating is harmless, and nothing falls between |

`dafny verify dfyconfig.toml` checks everything.

How to read it. `Replay(disk)` is the stream of records a spool opened on a directory would still
deliver; it is the abstract queue, and every spool operation is specified by what it does to it.
`Device` appends a snapshot to `history` with every change, so a promise about the snapshots an
operation adds is a promise about every crash inside it. Operations of the spool relate two values
of `View`, the spool before and after: `Appended`, `Discarded`, `Released` and, for the drain,
`Forwarded`. A `Ledger` is a run seen from outside, `Follows` says what each event may do to it, and
`Safe` and `Ordered` are what then hold of it.

Where the code and its comments disagree, the model follows the code:

- The comment on `allocate` says the smallest requests are paused. The code pauses the largest (`LargestArePaused`).
- "Missing or stale data reduces the proposal, never increases it" is false; `LosingDataIsSafeIff` gives the exact
  condition for one observation, `FallbackIsSafeIff` that for a policy, and a fresh observation without a site load
  counts as no load (`MissingLoadProposesTheMost`).
- After a pause a limited connector can be offered more than it asked for (`OverOfferedIff`, `LimitedCanExceedItsRequest`).
- The session projection is said to know the connector from the start event. The stop's connector `"0"` is not
  empty and overwrites it; `KeepsConnectorIff` says exactly when the row has the connector.
- The event log is said to be what the projection is rebuilt from. That works exactly as long as no event the log
  turns away as a duplicate has news for the bill (`LogRebuildsIff`, `LogCanMissAReading`).
- `open` loads the cursor before it truncates and never moves it. After a power loss below the cursor, new
  records land where the drain does not look (`NextIsReplayedIff`).

## Model

| member | source | states |
|---|---|---|
| `Delivery.Run` | edge/orvolt-edge-agent/src/pipeline.rs:68-106 | any script of enqueues, drains against any answers of the sink, restarts and crashes after any single change to flash or uplink, on an empty directory: what the cloud received and what is pending are those of a ledger reached by permitted steps, one per event. An enqueue adds its payload and loses the oldest only if the directory would exceed the ceiling, never the new one; a drain moves exactly the batches the sink confirms before anything else, and the cloud also has whichever records of the batch that failed arrived all the same; only a crash or such records repeat, by at most a batch. Whenever it ends, all segment files but the newest are full, and their number is at most one more than the bytes on flash over the segment size |
| `Delivery.TraceIsSafe` | edge/orvolt-edge-agent/src/pipeline.rs:68-106 | at every point of such a run: what was passed over was received or evicted, evictions are counted, repetitions are at most one batch per interruption, and a delivery skips nothing a batch or more before it; if every batch that failed arrived up to some point, a delivery skips nothing at all, and repeats an earlier one or goes beyond all of them |
| `Delivery.GapsBreakOrder` | edge/orvolt-edge-agent/src/main.rs:148-167 | order does need that: a sink that loses the first of two records and takes the second delivers out of order |
| `Delivery.TraceExplains` | edge/orvolt-edge-agent/src/pipeline.rs:66-71 | the accepted payloads are exactly those enqueued, in order, except that an enqueue cut off by a crash may be missing |
| `Delivery.LossNeedsBacklog` | edge/orvolt-edge-agent/src/spool.rs:283-309 | however long it runs, an agent loses something only at an enqueue where the bytes on flash and the new record exceed the ceiling, so where the backlog with one segment more does; if that enqueue completed, the backlog afterwards is within two segments of the ceiling |
| `Delivery.RoomyLosesNothing` | edge/orvolt-edge-agent/src/spool.rs:283-309 | if the backlog always leaves room for the next payload and one segment, nothing is lost |
| `Ledgers.NothingIsForgotten` | edge/orvolt-edge-agent/src/pipeline.rs:73-95 | at least once: an accepted payload that the spool has passed was received or is one of the counted evictions; any other is pending at its place |
| `Ledgers.ExactlyTheSpared` | edge/orvolt-edge-agent/src/pipeline.rs:73-95 | without repetition the received and pending payloads together are exactly the accepted ones, once each and in order, without the evicted; without eviction too, the received stream is a prefix of the accepted one |
| `Delivery.FollowsIsSafe` | edge/orvolt-edge-agent/src/pipeline.rs:68-106 | each event, completed or cut off by a crash, keeps the ledger safe and as much in order as the sink allows, and only a crash or a batch that failed in part repeats, by at most a batch |
| `Ledgers.AcceptIsSafe` | edge/orvolt-edge-agent/src/spool.rs:120-147 | accepting a payload and losing the oldest ones to the ceiling keeps order and accounting, the evictions counted |
| `Ledgers.DeliverIsSafe` | edge/orvolt-edge-agent/src/pipeline.rs:78-95 | receiving records, in any positions beyond those the spool then goes on from, keeps the accounting |
| `Ledgers.DeliverKeepsOrder` | edge/orvolt-edge-agent/src/pipeline.rs:78-95 | and keeps deliveries as much in order as the arrivals are |
| `Delivery.EnqueueFollows` | edge/orvolt-edge-agent/src/spool.rs:120-147 | what an append promises at its end and at its crash points is a permitted step: payloads are lost only over the ceiling |
| `Delivery.DrainFollows` | edge/orvolt-edge-agent/src/pipeline.rs:78-106 | what a drain promises at its end and at its crash points is a permitted step, as far as the sink's answers let it go |
| `Delivery.CrashAndReopen` | edge/orvolt-edge-agent/src/spool.rs:90-114 | a process that died at any point is replaced by one whose spool is valid and continues with what that point replays |
| `Delivery.StepEnqueue` | edge/orvolt-edge-agent/src/pipeline.rs:68-71 | an enqueue, crashed or not, is a permitted step of the ledger, which also has the bytes on flash |
| `Delivery.StepDrain` | edge/orvolt-edge-agent/src/pipeline.rs:78-106 | a drain, crashed or not, is a permitted step of the ledger for the answers given |
| `Delivery.StepReopen` | edge/orvolt-edge-agent/src/spool.rs:90-114 | a restart, crashed or not, changes nothing that is pending or confirmed |
| `Delivery.Step` | edge/orvolt-edge-agent/src/pipeline.rs:68-106 | one event of any kind, crashed or not, is a permitted step of the ledger |
| `EndToEnd.EffectivelyOnce` | edge/orvolt-edge-agent/src/pipeline.rs:73-77 | replay is harmless: what was received, repetitions included, followed by what is pending makes the same telemetry table as each accepted payload once, in order, without those the ceiling took before they were ever received, if deliveries were in order or a key determines its record |
| `EndToEnd.RunIntoTable` | edge/orvolt-edge-agent/src/pipeline.rs:73-77 | the same for every script, with the spool, the forwarder and the table put together, over links that break or for keys that determine their record |
| `EndToEnd.TableAfter` | cloud/control-plane/internal/store/postgres.go:52-57 | for deliveries in order, after any number of them the table is that of the payloads among them, once each and in order |
| `EndToEnd.SameTable` | cloud/control-plane/internal/store/postgres.go:52-57 | where a key determines its record, only which payloads arrived matters to the table, not their order or how often |
| `EndToEnd.NothingFallsBetween` | cloud/control-plane/internal/ingest/consumer.go:184-240 | with the ingest runner and the broker behind the edge, each crashing and repeating as it likes: an accepted payload was lost to the ceiling, waits on flash, waits in the broker, is parked, or has a row |
| `EndToEnd.RunSystem` | cloud/control-plane/internal/ingest/consumer.go:150-259 | one run of everything: edge events, batches at the ingest runner and messages of other devices, interleaved and crashing in any way, where each record the cloud receives becomes a message in the broker. The broker holds under the device's subject exactly what the edge handed over, and every payload the spool ever accepted is somewhere |
| `EndToEnd.RowsWereAccepted` | cloud/control-plane/internal/ingest/consumer.go:191-202 | and a row under the device's subject says what some payload the spool accepted says |
| `EndToEnd.Converged` | cloud/control-plane/internal/store/postgres.go:75-97 | once flash is drained and the broker has nothing left to deliver, the rows have exactly the keys and measurements of the accepted payloads not lost to the ceiling, provided a key determines its measurements |
| `Spooling.Spool.Open` | edge/orvolt-edge-agent/src/spool.rs:90-114 | any directory is listed completely, its newest segment cut to the intact part and reopened for appending, a cut counted once, and resumed from its stored position; a well-formed one yields a valid spool that replays exactly what the directory held, and so does a crash on the way |
| `Spooling.Spool.ListSegments` | edge/orvolt-edge-agent/src/spool.rs:94-100 | the segment numbers found in no particular order are listed in ascending order, each once |
| `Spooling.Spool.RecoverNewestSegment` | edge/orvolt-edge-agent/src/spool.rs:341-368 | the newest segment is cut back to its intact part in one step, counted once, and becomes the one appended to; no other file changes |
| `SpoolSteps.RecoveryKeepsStream` | edge/orvolt-edge-agent/src/spool.rs:338-368 | recovery keeps every record `open` would have delivered, and what is appended next follows whole records |
| `Spooling.IntactLength` | edge/orvolt-edge-agent/src/spool.rs:350-353 | the scan finds the length of the intact part: the encoded size of the records that can be read |
| `Spooling.CountRecords` | edge/orvolt-edge-agent/src/spool.rs:328-336 | counts exactly the records that can be read from a segment |
| `Spooling.Spool.Append` | edge/orvolt-edge-agent/src/spool.rs:120-147 | an empty payload changes nothing, an oversized one is refused and changes nothing; any other becomes the newest pending record, the oldest segments give way only if the directory with it exceeds the ceiling and what is left is less than a segment short of it, a segment is added only if the newest was full, records are conserved, the total stays within the larger of the ceiling and one full segment plus the largest record, and every crash point replays the state before or one between with-payload and after-eviction |
| `Spooling.Spool.EnsureActiveSegment` | edge/orvolt-edge-agent/src/spool.rs:260-281 | exactly one empty segment, numbered one above the newest, is added if there is none or the newest is full, and otherwise nothing changes; afterwards there is a segment with room, nothing pending, committed or counted changed, also at a crash |
| `Spooling.Spool.WriteRecord` | edge/orvolt-edge-agent/src/spool.rs:132-143 | adds exactly one record at the end; whatever prefix of it a crash leaves, the record counts whole or not at all |
| `Spooling.Spool.EnforceCapacity` | edge/orvolt-edge-agent/src/spool.rs:289-309 | removes an oldest run of segments, the shortest that meets the ceiling, never the one being written; discarded plus pending plus committed records are conserved; crashes resume between the old and new position |
| `Spooling.Spool.EvictOldest` | edge/orvolt-edge-agent/src/spool.rs:299-306 | one round of eviction: whichever of unlink and cursor rename a crash falls behind, the reopened spool agrees |
| `Spooling.Spool.RemoveSegment` | edge/orvolt-edge-agent/src/spool.rs:311-326 | one file, one number and possibly the active segment go; records are counted as dropped only on request |
| `Spooling.Spool.TotalBytes` | edge/orvolt-edge-agent/src/spool.rs:370-378 | the sum of all segment lengths |
| `Spooling.Spool.ReadFromSegment` | edge/orvolt-edge-agent/src/spool.rs:225-258 | takes the next records of a segment up to the limit, stops at the first unreadable one, counts it once, and leaves the position between two records |
| `Spooling.Spool.ReadBatch` | edge/orvolt-edge-agent/src/spool.rs:152-182 | returns exactly the first min(max, n) pending records across segments, consumes nothing, and its position is one that committing releases exactly those |
| `Spooling.Spool.Offer` | edge/orvolt-edge-agent/src/pipeline.rs:85-86 | handing a batch to the sink changes nothing on flash, and what the cloud has grows by the records that arrive, one after the other |
| `Spooling.Spool.Commit` | edge/orvolt-edge-agent/src/spool.rs:186-199 | for any position: the segments numbered below it are unlinked, the one being written among them or not, and it is stored. For one between two records of the oldest segment, before the current one or not: the stream goes on from there. For one between two records at or after the current one: exactly what lies before it is released, and between any two unlinks and before the cursor rename a crash resumes no earlier than the old and no later than the new position |
| `Spooling.Spool.ReclaimBehind` | edge/orvolt-edge-agent/src/spool.rs:189-197 | exactly the segments numbered below the position go, oldest first, and after each unlink the directory still replays a stream between old and new |
| `Spooling.Spool.PendingBytes` | edge/orvolt-edge-agent/src/spool.rs:202-209 | file sizes and the cursor offset alone give the encoded size of the pending records, zero exactly when there are none |
| `Spooling.Spool.IsEmpty` | edge/orvolt-edge-agent/src/spool.rs:221-223 | true exactly when nothing is pending, and changes nothing |
| `Spooling.Spool.ValidMeans` | edge/orvolt-edge-agent/src/spool.rs:78-86 | every valid spool stands on a well-formed directory that holds the backlog and at most one segment more |
| `Spooling.Spool.SegmentsAreFew` | edge/orvolt-edge-agent/src/spool.rs:260-281 | in a valid spool all segments but the newest hold at least what the device was found to hold, so their number is bounded by the bytes on flash |
| `SpoolSteps.AppendedInTurn` | edge/orvolt-edge-agent/src/spool.rs:130-146 | rotation, record and eviction in turn amount to one append, at the end and at every crash point |
| `SpoolSteps.Evicted` | edge/orvolt-edge-agent/src/spool.rs:299-306 | unlinking the oldest segment and moving the cursor leave directories that replay the same stream, the old one without that segment's records |
| `SpoolSteps.RecordReaches` | edge/orvolt-edge-agent/src/spool.rs:137-142 | however many bytes of a record reached the newest segment, the directory is well formed and replays the stream with the record or without |
| `SpoolSteps.ReadAdvances` | edge/orvolt-edge-agent/src/spool.rs:159-179 | moving from segment to segment while reading neither skips nor repeats a record |
| `SpoolSteps.ReclaimContinues` | edge/orvolt-edge-agent/src/spool.rs:195-197 | one more unlink of a fully delivered segment keeps a crash between the old and the new position |
| `SpoolSteps.PendingSize` | edge/orvolt-edge-agent/src/spool.rs:202-209 | in a directory of whole records the committed bytes of the first segment and the pending records make up all files |
| `SegmentLog.ReadsMeans` | edge/orvolt-edge-agent/src/spool.rs:397-420 | the stored position resolves to the oldest segment and an offset between records, and replaying from there is the stream |
| `SegmentLog.SegmentCreated` | edge/orvolt-edge-agent/src/spool.rs:269-274 | a new empty segment file changes nothing that is replayed |
| `SegmentLog.NewestExtended` | edge/orvolt-edge-agent/src/spool.rs:137-142 | bytes behind whole records add exactly the records they hold |
| `SegmentLog.OldestUnlinked` | edge/orvolt-edge-agent/src/spool.rs:315-321 | without its oldest segment a directory replays the same stream without that segment's records |
| `SegmentLog.CursorMoved` | edge/orvolt-edge-agent/src/spool.rs:424-432 | a renamed cursor file resumes exactly where it points |
| `SegmentLog.NewestTruncated` | edge/orvolt-edge-agent/src/spool.rs:355-357 | cutting the newest segment to its intact part keeps the stream and leaves whole records |
| `SegmentNumbers.FirstFromAt` | edge/orvolt-edge-agent/src/spool.rs:380-386 | in an ordered set the range queries find the segment itself and its successor |
| `SegmentNumbers.BelowIsPrefix` | edge/orvolt-edge-agent/src/spool.rs:189-194 | the reclaimable segments are exactly those listed before the one the position is in |
| `PowerLoss.TailLossIsHarmlessIff` | edge/orvolt-edge-agent/src/spool.rs:111-112 | after losing the tail of the newest segment the directory is well formed if and only if the stored position is not past what is left, and then only records at the end of the stream are missing |
| `PowerLoss.NextIsReplayedIff` | edge/orvolt-edge-agent/src/spool.rs:111-112 | every payload appended next to the same segment is intact on flash, and is replayed, behind all that was left, if and only if the stored position survived |
| `PowerLoss.LaterAppends` | edge/orvolt-edge-agent/src/spool.rs:111-112 | for any list of payloads appended to the same segment: with the position, all follow what was left; without it, nothing is replayed until the file has grown past it, and if it falls between two of the new records exactly those behind it are |
| `EdgeDevice.Device.Create` | edge/orvolt-edge-agent/src/spool.rs:269-273 | an empty file appears, as one crash point |
| `EdgeDevice.Device.Write` | edge/orvolt-edge-agent/src/spool.rs:137-142 | bytes reach the end of a file one at a time, each a crash point |
| `EdgeDevice.Device.Unlink` | edge/orvolt-edge-agent/src/spool.rs:315-320 | a file disappears, or was not there, as one crash point |
| `EdgeDevice.Device.Truncate` | edge/orvolt-edge-agent/src/spool.rs:355-357 | a file is cut, as one crash point |
| `EdgeDevice.Device.StoreCursor` | edge/orvolt-edge-agent/src/spool.rs:424-432 | the cursor file is replaced whole, as one crash point |
| `EdgeDevice.Device.Publish` | edge/orvolt-edge-agent/src/main.rs:142-169 | the agent hears success only if every record is acknowledged; otherwise any of the records may have arrived. They arrive one by one, each a crash point |
| `Records.ReadsWhatWasWritten` | edge/orvolt-edge-agent/src/spool.rs:441-473 | reading what was written, whatever follows it, returns the payload and its length |
| `Records.ReadsOnlyWhatWasWritten` | edge/orvolt-edge-agent/src/spool.rs:441-473 | on arbitrary bytes a record is read only where exactly that record was written |
| `Records.ReadIff` | edge/orvolt-edge-agent/src/spool.rs:441-473 | on arbitrary bytes: the end where no header fits, a record exactly where one was written, else corruption |
| `Records.TornRecordIsUnreadable` | edge/orvolt-edge-agent/src/spool.rs:443-464 | no strict prefix of a record reads as a record |
| `Records.CutKeepsLongestPrefix` | edge/orvolt-edge-agent/src/spool.rs:338-353 | for all payloads and every cut point the scan keeps exactly the longest whole-record prefix, and a record appended after recovery follows it |
| `Records.ScanCoversAnEncoding` | edge/orvolt-edge-agent/src/spool.rs:350-353 | on arbitrary bytes what the scan covers is the encoding of what it returns, and no record starts where it stops |
| `Records.ScanFindsEverything` | edge/orvolt-edge-agent/src/spool.rs:350-353 | encoded payloads are all found, followed by whatever the rest holds |
| `Records.Layout` | edge/orvolt-edge-agent/src/spool.rs:138-141 | the length and the checksum are at bytes 0 to 3 and 4 to 7, lowest byte first, and the payload follows |
| `Records.Le32` | edge/orvolt-edge-agent/src/spool.rs:137-140 | the little-endian header fields are four bytes that read back as the number |
| `Records.Le32Inverse` | edge/orvolt-edge-agent/src/spool.rs:451-452 | reading four bytes as a number and writing it again gives the same bytes |
| `Forwarding.Forwarder.constructor` | edge/orvolt-edge-agent/src/pipeline.rs:58-64 | a batch size of zero becomes one |
| `Forwarding.Forwarder.Enqueue` | edge/orvolt-edge-agent/src/pipeline.rs:68-71 | fails only for an oversized payload, otherwise appends as the spool promises |
| `Forwarding.Forwarder.Drain` | edge/orvolt-edge-agent/src/pipeline.rs:78-106 | terminates for every sink; the published records are the whole batches confirmed before the first other answer, computed from the answers alone; exactly they left the spool, and the cloud got them in order and once each, and then exactly those records of the batch that failed which arrived; blocked exactly when records remain; at every crash point the cloud has a first part of that, and what it has is ahead of what the spool resumes from by at most a batch |
| `Forwarding.Forwarder.ForwardBatch` | edge/orvolt-edge-agent/src/pipeline.rs:81-93 | one round: what arrives of a batch that fails the cloud has, and the whole batch stays in the spool; a confirmed one leaves it |
| `Forwarding.StoppedAt` | edge/orvolt-edge-agent/src/pipeline.rs:89-92 | where the sink stops confirming, the confirmed batches so far are what the closed form says, and what arrived of the next one follows them |
| `Forwarding.BatchTaken` | edge/orvolt-edge-agent/src/main.rs:142-169 | records of a batch handed over and not yet committed, which a crash can leave behind after each, are ahead by at most a batch |
| `Forwarding.BatchForwarded` | edge/orvolt-edge-agent/src/pipeline.rs:86-88 | committing it then keeps the account of the records forwarded so far and of every crash point in between |
| `Forwarding.ConsumeInBatches` | edge/orvolt-edge-agent/src/spool.rs:149-199 | reading and committing in batches of any sizes hands out the stream as it is and leaves the rest |
| `PowerAdvice.Allocate` | cloud/control-plane/internal/advice/allocate.go:157-239 | the rounds and the pausing loop compute the one-at-a-time water-filling allocation of the sorted demands |
| `PowerAdvice.EachGetsItsOwn` | cloud/control-plane/internal/advice/allocate.go:157-239 | demand by demand, in their one order: under its own station and connector, each gets its clamped request rounded down if that is within an equal share of what the smaller ones leave; of the rest as many as can have 1.4 kW each share evenly what is left, within the limit and rounded down, and the largest are paused |
| `PowerAdvice.SatisfyModest` | cloud/control-plane/internal/advice/allocate.go:184-205 | satisfying whole rounds stops exactly where satisfying one request at a time would, with the same power left |
| `PowerAdvice.SatisfyRound` | cloud/control-plane/internal/advice/allocate.go:186-200 | a round satisfies a run of the smallest waiting requests, and none only if one-at-a-time filling stops there too |
| `PowerAdvice.ShareRest` | cloud/control-plane/internal/advice/allocate.go:207-233 | pausing the largest until the share is useful gives every waiting demand its specified allocation |
| `PowerAdvice.Without` | cloud/control-plane/internal/advice/allocate.go:241-253 | keeps exactly the indices not removed, in order |
| `PowerAdvice.UnpausedIsWaterFilling` | cloud/control-plane/internal/advice/allocate.go:177-222 | if nobody is paused there is a level such that everyone gets the smaller of clamped request and level, rounded down, and before rounding the budget is used up if anyone is limited |
| `PowerSharing.SatisfiedFindsLevel` | cloud/control-plane/internal/advice/allocate.go:184-205 | satisfying requests smallest first stops at the water level or satisfies all of them |
| `PowerSharing.WaterLevelIsFair` | cloud/control-plane/internal/advice/allocate.go:150-156 | max-min fairness: any sharing that gives someone more gives less to someone who had no more |
| `PowerAdvice.AllocationsFitBudget` | cloud/control-plane/internal/advice/allocate.go:262-270 | the advised powers, rounded, never add up to more than what is available, for any demands |
| `PowerAdvice.OrderDoesNotMatter` | cloud/control-plane/internal/advice/allocate.go:163-175 | every permutation of the demands gives the same advice |
| `DemandOrder.SortIsUnique` | cloud/control-plane/internal/advice/allocate.go:167-175 | the three keys make the sorted sequence of a multiset of demands unique, so an unstable sort has one result |
| `DemandOrder.SortedIsOrdered` | cloud/control-plane/internal/advice/allocate.go:165-175 | sorting keeps the demands and puts them in order |
| `DemandOrder.BeforeMeans` | cloud/control-plane/internal/advice/allocate.go:167-175 | the smaller request comes first, of equal ones the earlier station, and there the earlier connector |
| `DemandOrder.StringLessIff` | cloud/control-plane/internal/advice/allocate.go:171-174 | names are compared at the first character in which they differ, and a prefix comes first |
| `DemandOrder.BeforeIsTotal` | cloud/control-plane/internal/advice/allocate.go:167-175 | the comparison leaves only identical demands tied |
| `DemandOrder.BeforeIsTransitive` | cloud/control-plane/internal/advice/allocate.go:167-175 | the comparison is a weak order, as sorting needs |
| `PowerAdvice.OneAllocationEach` | cloud/control-plane/internal/advice/allocate.go:235-238 | the allocations carry the stations and connectors of the demands, in the order of the requests |
| `PowerAdvice.LargestArePaused` | cloud/control-plane/internal/advice/allocate.go:223-232 | in request order outcomes read full, limited, paused: it is the largest requests that are paused |
| `PowerAdvice.PausesAreFewest` | cloud/control-plane/internal/advice/allocate.go:209-233 | the paused are exactly those beyond the number that can share what is left at 1.4 kW each |
| `PowerSharing.SharersIsLargest` | cloud/control-plane/internal/advice/allocate.go:209-222 | the pausing loop ends with the smaller of the number waiting and the floor of what is left over 1.4 kW |
| `PowerAdvice.LimitedIsUsefulIff` | cloud/control-plane/internal/advice/allocate.go:211-217 | a limited connector gets at least 1.4 kW if and only if there is no connector cap or the cap allows it |
| `PowerAdvice.OverOfferedIff` | cloud/control-plane/internal/advice/allocate.go:209-216 | connector by connector: it is limited to more than it asked for if and only if it shares after a pause and the share, capped and rounded, exceeds its request |
| `PowerAdvice.SomebodyIsOverOfferedIff` | cloud/control-plane/internal/advice/allocate.go:209-216 | somebody is if and only if that holds of the smallest request left waiting |
| `PowerAdvice.OverRequestOnlyWhenPausing` | cloud/control-plane/internal/advice/allocate.go:209-216 | a limited connector is offered more than it asked for only if someone was paused and it asked for less than 2.8 kW |
| `PowerAdvice.LimitedCanExceedItsRequest` | cloud/control-plane/internal/advice/allocate.go:209-216 | that does happen: any two demands of 1 kW sharing 1.5 kW |
| `PowerSharing.Clamp` | cloud/control-plane/internal/advice/allocate.go:255-260 | the request, unless it is negative or above the limit, where there is one: then nothing, or the limit |
| `PowerSharing.RoundDown` | cloud/control-plane/internal/advice/allocate.go:268-270 | rounds down to a multiple of 10 W, by less than 10 W |
| `PowerSharing.RoundingKeepsUseful` | cloud/control-plane/internal/advice/allocate.go:268-270 | rounding neither makes a useful power useless nor the reverse |
| `PowerAdvice.Compute` | cloud/control-plane/internal/advice/allocate.go:98-148 | an observation counts exactly if it is at most as old as the policy allows. Then the load without charging plus the power asked for is the site load, or nothing is left of it; and load, margin and what is available make up the capacity, or nothing is available. Otherwise the fallback less the margin is available. The surplus and the age follow the observation; the total proposed fits what is available, and so the capacity or the fallback |
| `PowerAdvice.LosingDataIsSafeIff` | cloud/control-plane/internal/advice/allocate.go:10-11 | losing the observation does not raise the proposal if and only if the fallback is within the margin or within capacity less the other load |
| `PowerAdvice.FallbackIsSafeIff` | cloud/control-plane/internal/advice/allocate.go:10-11 | a policy is safe against losing any observation if and only if its fallback is within its margin |
| `PowerAdvice.LosingDataCanRaiseTheProposal` | cloud/control-plane/internal/advice/allocate.go:117-127 | an overloaded site where the outage raises the proposal from 0 to 15 kW |
| `PowerAdvice.MissingLoadProposesTheMost` | cloud/control-plane/internal/advice/allocate.go:136-138 | a fresh observation without a site load proposes the most any observation can |
| `SessionStore.Postgres.PersistSessionEventBatch` | cloud/control-plane/internal/store/sessions.go:67-88 | a batch is applied whole or not at all; success is reported only if it was, though a commit whose confirmation is lost reports failure |
| `Sessions.ProjectionIsFold` | cloud/control-plane/internal/store/sessions.go:30-51 | whatever events of other sessions are interleaved, a session's billing columns are the merge of its own events in arrival order |
| `Sessions.FoldIsColumnwise` | cloud/control-plane/internal/store/sessions.go:45-49 | merging amounts to the first start, stop, start reading and stop reading and the largest register |
| `Sessions.OrderIndependentIff` | cloud/control-plane/internal/store/sessions.go:23-29 | the bill is the same for every order and repetition of delivery if and only if the events agree on start, stop and the readings taken then |
| `Sessions.SameBill` | cloud/control-plane/internal/store/sessions.go:23-29 | two deliveries of the same set of agreeing events give the same billing columns |
| `Sessions.LogKeepsFirsts` | cloud/control-plane/internal/store/sessions.go:17-21 | the log has exactly one entry for each session, event type and time, with the register of the first such event |
| `Sessions.RedeliveryIsHarmless` | cloud/control-plane/internal/store/sessions.go:28-29 | applying again any event applied before changes no billing column |
| `Sessions.LogRebuildsIff` | cloud/control-plane/migrations/004_charging_sessions.sql:47-60 | the deduplicated log alone rebuilds every bill after every event if and only if no event it turned away had anything to add to the bill |
| `Sessions.LogAgreesFinallyIff` | cloud/control-plane/migrations/004_charging_sessions.sql:47-60 | at the end alone, where a later reading may have made good for an earlier one: the log rebuilds a session's bill if and only if the events it kept have the same first start reading, first stop reading and largest register |
| `Sessions.TimesAgree` | cloud/control-plane/migrations/004_charging_sessions.sql:47-60 | the times a session started and stopped the log never misses |
| `Sessions.LogStaysRightIff` | cloud/control-plane/internal/store/sessions.go:17-21 | one event at a time: log and projection go on agreeing if and only if the event is new to the log or absorbed by the bill |
| `Sessions.ExpendableIff` | cloud/control-plane/internal/store/sessions.go:17-21 | of an event whose key is logged that is the case if and only if its register is no news |
| `Sessions.LogRebuildsTheBill` | cloud/control-plane/migrations/004_charging_sessions.sql:47-60 | in particular if session, type and time determine the register |
| `Sessions.LogCanMissAReading` | cloud/control-plane/internal/store/sessions.go:17-21 | otherwise not: of two updates stamped alike the log keeps the first register, the projection the larger |
| `Sessions.FoldKeepsBoundaries` | cloud/control-plane/internal/store/sessions.go:45-49 | known boundaries never change and the register never falls |
| `Sessions.SettledBillIsFinal` | cloud/control-plane/internal/store/sessions.go:53-65 | once both readings are known the energy never changes, and a stopped session never reopens |
| `Sessions.EnergyIsKnownIff` | cloud/control-plane/internal/store/sessions.go:60-64 | energy is known if and only if an opening reading is |
| `Sessions.EnergyIsTheAdvance` | cloud/control-plane/internal/store/sessions.go:60-64 | then the first opening reading plus the energy is the larger of that reading and the one billed up to: the first of a stop or, while there is none, the largest of all |
| `Sessions.SomeReadingIsBilled` | cloud/control-plane/internal/store/sessions.go:60-64 | there always is such a reading |
| `Sessions.OpenBillOnlyGrows` | cloud/control-plane/internal/store/sessions.go:60-64 | until the closing reading, known energy is not negative and never decreases |
| `Sessions.ConnectorIsLastNamed` | cloud/control-plane/internal/store/sessions.go:38 | for any events the last one of a session that names a connector decides it |
| `Sessions.ConnectorIsUnknown` | cloud/control-plane/internal/store/sessions.go:38 | and if none does it is empty |
| `Sessions.RowIsLastNamed` | cloud/control-plane/internal/store/sessions.go:36-48 | each descriptive column of a row has what the last event of the session that says something there says |
| `Sessions.LastNamedIs` | cloud/control-plane/internal/store/sessions.go:36-48 | that is the value of an event after which all are silent, and blank only if all are |
| `Ingest.Run` | cloud/control-plane/internal/ingest/consumer.go:186-259 | any interleaving of publishing, processing batches against any failures of parking, terminating, persisting, committing and acknowledging, heard or not, and crashes after any effect: every settled message has a row or was rejected (and parked, with a dead-letter stream), each key has one row holding the first record persisted, and no record was persisted that was not published |
| `Ingest.ProcessOrCrash` | cloud/control-plane/internal/ingest/consumer.go:186-240 | one batch, completed or cut off after any effect, keeps that account, and messages in the broker stay as published |
| `Ingest.NothingIsLost` | cloud/control-plane/internal/ingest/consumer.go:184-240 | with a dead-letter stream each published message can still be delivered, is parked, or has a row under its key saying what a published message with that key said |
| `Ingest.Runner.ProcessBatch` | cloud/control-plane/internal/ingest/consumer.go:186-240 | unless the transaction is rolled back, each key the table did not have gets the first record the batch has for it, stamped with the time of the batch, and no other row changes; exactly the payloads that can never be read are parked, as far as parking works; exactly the stored messages, if confirmed, and those parked are settled |
| `Ingest.Runner.Triage` | cloud/control-plane/internal/ingest/consumer.go:191-213 | the first loop keeps the decodable messages in order, parks the permanently invalid ones as far as it can, settles those it heard were parked and leaves the rest |
| `Ingest.Runner.ParkMessage` | cloud/control-plane/internal/ingest/consumer.go:245-259 | a message is settled only after the runner heard that its payload was parked, unless there is no dead-letter stream; a park that went through unheard leaves it to be parked again |
| `Ingest.ParksMembers` | cloud/control-plane/internal/ingest/consumer.go:245-259 | a payload is parked exactly if a permanently invalid message of the batch carries it and its park does not fail |
| `Ingest.Runner.Acknowledge` | cloud/control-plane/internal/ingest/consumer.go:234-238 | acknowledges only messages whose row exists, all but the acknowledgements that get lost |
| `Ingest.Runner.PersistBatch` | cloud/control-plane/internal/store/postgres.go:80-131 | the whole batch or nothing becomes visible; an unconfirmed commit reports failure although it happened |
| `Ingest.BatchIsStored` | cloud/control-plane/internal/store/postgres.go:52-57 | inserting the decodable messages of a batch in order stores under each new key the first of them |
| `Ingest.CalmPassSettles` | cloud/control-plane/internal/ingest/consumer.go:186-240 | when nothing fails one pass settles every message of the batch that can be decided |
| `TelemetryTable.InsertAllKeeps` | cloud/control-plane/internal/store/postgres.go:52-57 | stored rows never change, every record of a batch has a row, and no other key appears |
| `TelemetryTable.FirstPersistedStays` | cloud/control-plane/internal/store/postgres.go:52-57 | over any sequence of batches a row is the first record persisted under its key |
| `TelemetryTable.RowIsFirst` | cloud/control-plane/internal/store/postgres.go:52-57 | and every row is such a record |
| `Gateway.Run` | cloud/ocpp-gateway/internal/csms/handler.go:199-312 | any sequence of starts, stops, meter values, publishing outcomes and restarts ends in the state given step by step by the script; nobody was told of a start or stop before its event was published; and if no process issued more numbers than seconds passed before the next one, every session was started at most once and the accepted numbers strictly increase |
| `Gateway.Handler.OnStartTransaction` | cloud/ocpp-gateway/internal/csms/handler.go:243-281 | denied without effect, or the next number is used up, and accepted if and only if publishing its STARTED event was confirmed; what that event says is in the next rows |
| `Gateway.Handler.OnStopTransaction` | cloud/ocpp-gateway/internal/csms/handler.go:288-312 | confirmed if and only if publishing its STOPPED event was |
| `Gateway.Handler.OnMeterValues` | cloud/ocpp-gateway/internal/csms/handler.go:199-236 | publishes exactly one update per reading that has a register, belongs to a transaction and gets through |
| `Gateway.PublishedIsReported` | cloud/ocpp-gateway/internal/csms/mapping.go:272-302 | everything a run published reports one of its requests: the time, reading, connector, token and reason of that request, the gateway's clock only where it gave no time, under its charge point, site and number |
| `Gateway.RequestIsReported` | cloud/ocpp-gateway/internal/csms/handler.go:243-312 | and every start and stop that got through is reported so |
| `Gateway.SessionShowsStart` | cloud/ocpp-gateway/internal/csms/handler.go:243-281 | however the events of an unambiguous run are delivered: a session's row has the time and reading of its start request, its charge point, site, number and kind of token |
| `Gateway.SessionIsOpenIff` | cloud/ocpp-gateway/internal/csms/handler.go:288-312 | it is open if and only if no stop of that number from that charge point got through |
| `Gateway.SessionShowsStop` | cloud/ocpp-gateway/internal/csms/handler.go:288-312 | once one did, and if repeated stops agree, it has the time and reading of the stop request, and the energy billed is what the meter advanced by between the two requests |
| `Gateway.SessionShowsToken` | cloud/ocpp-gateway/internal/csms/handler.go:257-260 | the token hash is that of the token the start named, unless a stop named another |
| `Gateway.SessionShowsReason` | cloud/ocpp-gateway/internal/csms/handler.go:303-307 | the stop reason is that of the stops, if they give the same |
| `Gateway.ReadingCounts` | cloud/ocpp-gateway/internal/csms/handler.go:218-234 | a reading that got through is in the published updates, and every bill its event is delivered into has at least that register |
| `Gateway.Handler.NextTransactionId` | cloud/ocpp-gateway/internal/csms/handler.go:75-77 | the next number |
| `Gateway.Handler.constructor` | cloud/ocpp-gateway/internal/csms/handler.go:69-73 | a new process starts from the clock and keeps what was published |
| `Gateway.FreshStart` | cloud/ocpp-gateway/internal/csms/handler.go:251-263 | a fresh number keeps sessions unambiguous, since different numbers give different session identifiers |
| `Gateway.DistinctIffApart` | cloud/ocpp-gateway/internal/csms/handler.go:61-77 | whatever the clock does over any number of restarts: the numbers of a run are all different if and only if no two of its processes overlap, a process covering the numbers after its start time up to its last |
| `Gateway.IssuedByLifetimes` | cloud/ocpp-gateway/internal/csms/handler.go:69-77 | a run issues exactly the numbers its processes cover, in order |
| `Gateway.DistinctIffPaced` | cloud/ocpp-gateway/internal/csms/handler.go:61-64 | in particular, if the clock does not run backwards and every process issues a number: if and only if no process had issued more numbers than seconds passed when it was restarted |
| `Gateway.NumbersCanRepeat` | cloud/ocpp-gateway/internal/csms/handler.go:61-64 | a run of two processes that issues a number twice |
| `Gateway.LifetimeIssues` | cloud/ocpp-gateway/internal/csms/handler.go:69-77 | a process issues every number from its start time on, none left out |
| `Gateway.StartsAgree` | cloud/ocpp-gateway/internal/csms/handler.go:251-263 | a session of an unambiguous run has one start, so the events agree on its time and reading |
| `Gateway.BillDependsOnStopsOnly` | cloud/ocpp-gateway/internal/csms/handler.go:283-312 | so its bill is independent of delivery order if and only if the stops published for it agree |
| `Gateway.PublishedFromGateway` | cloud/ocpp-gateway/internal/csms/mapping.go:283-294 | every event of a run names a connector, and a stop names "0" |
| `Gateway.KeepsConnectorIff` | cloud/ocpp-gateway/internal/csms/handler.go:346-348 | however its events are delivered, a session's row has the connector it was opened on if and only if the event delivered last carries it; after a stop it is "0" |
| `Gateway.StopErasesConnector` | cloud/ocpp-gateway/internal/csms/handler.go:346-348 | a session opened on any connector but zero, stopped and delivered in order has lost it |
| `SessionIds.SessionIdIsInjective` | cloud/ocpp-gateway/internal/csms/mapping.go:40-42 | different transactions have different identifiers, even if charge point names contain colons |
| `SessionIds.DecimalIsInjective` | cloud/ocpp-gateway/internal/csms/mapping.go:40-42 | different integers print differently |
| `SessionIds.DecimalReadsBack` | cloud/ocpp-gateway/internal/csms/mapping.go:40-42 | numbers are written in decimal: the digits read back as the number, without leading zeros, after a minus sign if it is negative |

## Left out

- The CRC-32, the token hash, payload decoding and sender verification are arbitrary functions, passed as parameters.
- I/O errors other than a crash, disk-full included: an operation either completes or the process dies in it.
- Bit rot in segments that are no longer written: `DiskOk` says only the newest segment can be torn.
- Page-cache loss on power failure inside `Delivery.Run`, where every change survives a crash; `PowerLoss` treats it for one directory.
- The text of the cursor file, segment file names and `cursor.tmp`: a directory is a map from numbers to bytes and an optional position, and the temporary file is invisible to `open`.
- Overflow of 64-bit segment numbers, offsets and counters, and of 32-bit OCPP transaction numbers.
- Spooling.Spool.Commit: for positions inside a record or in no segment only the files unlinked and the position stored are stated, not what a later read returns; the drain never uses one.
- Records of a failed batch that are still on their way when the next batch is offered: those of a batch that arrive do so before the agent goes on.
- Spooling.Spool.Open: for directories no run of the agent can leave behind only the listing and the resumed position are stated.
- Floating-point rounding in the power advice: powers are real numbers, and strings are compared character by character.
- The recomputation schedule, storage and HTTP delivery of advice.
- Station and connector liveness projections, energy observations and their tables: a redelivered message has a new arrival stamp, so they are not idempotent.
- EndToEnd.Converged: compares keys and measurements; the arrival stamp of a row is that of whichever delivery was stored first.
- Queries, paging and the session read API.
- The broker's retention limits, acknowledgement deadlines and fetch batching: any published message may be processed at any time, also again after it was settled.
- Telemetry the gateway publishes beside session events, unit conversions, enumeration tables, and the boot, heartbeat, authorize and status handlers.
- Interleaving of concurrent handler calls inside the gateway: each call is one step.
- NATS, MQTT, HTTP, systemd and metrics plumbing, the simulator, migrations other than the session tables, and deployment.
