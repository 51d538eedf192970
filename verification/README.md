# Drone operations platform: verified models of its decision logic

The platform plans drone missions, watches them, raises alerts and serves all of it through one gateway. This
project models the parts of it in which an error would go unnoticed, as Dafny programs, and proves what each of
them is for:

| area | files |
|---|---|
| no-fly zones: conflicts of a route with polygons, simplicity of submitted rings | `Geometry`, `EvenOdd`, `ConflictDetection`, `GeofenceValidation`, `RingInterior` |
| track stitching: greedy association as stable matching, identities over whole runs | `Tracking`, `StableMatching`, `TrackRuns` |
| escalation: alerts, their timers and who is notified, over all runs | `EscalationLogic`, `EscalationTimer`, `EscalationService`, `EscalationRuns` |
| missions: validation, item list, MAVLink container (both directions) | `WaypointValidation`, `MissionExport`, `MavlinkCodec`, `MavlinkRoundTrip` |
| telemetry: admission and the batching persister under every interleaving | `TelemetryBounds`, `Persister`, `PersisterRuns` |
| gateway: routing table, merged OpenAPI document, rate limiter | `Routing`, `OpenApiMerge`, `OpenApiPointer`, `OpenApiReferences`, `OpenApiTables`, `OpenApiMeaning`, `RateLimit`, `RateLimitRuns` |
| notifications: fan-out, retries and fallback for every behaviour of the transports | `DispatchLogic`, `Dispatch`, `DispatchRuns` |
| scene events and history queries | `Scene`, `SceneOrder`, `SceneMeaning`, `History`, `HistoryMeaning` |
| shared value types and the runtimes' stable sort | `SharedTypes`, `Sorting` |

Code that changes state is modelled by classes and loops, each proved against a specification function; the
properties are then proved about those functions, and for the services over every sequence of calls. Coordinates,
times and thresholds are exact numbers.

Where code and documentation disagree, the model follows the code:

- `normalizePath` is documented to give a single leading slash. It does unless the path, up to its query, starts
  with two slashes and has something other than slashes (`Routing.LeadingSlashIsSingleIff`; `//a` stays as it is).
- `Retry-After` is described as the time until the window resets. The counter lives one window length from the
  window's first request, so the client is told the time to the reset plus the lateness of that request
  (`RateLimitRuns.RetryAfterIsTimeToResetIff`).
- A `flush` of the persister is documented to resolve once the batch captured at the call has been written. It
  drains what is pending when its link of the chain runs, and it settles also when the insert failed and the batch
  was dropped; exactly when everything accepted before the call is in the store is stated by
  `PersisterRuns.DrainedFlushIsWrittenIff`. If the error handler throws, the next link is skipped; when that loses
  work is stated by `PersisterRuns.NextFlushIncompleteIff`.
- The merge is documented to rewrite all local schema references. It rewrites those that name a schema of their own
  document; any other local reference stays as it is, and only schemas and paths are carried over. So a reference
  that resolves to anything but a whole own schema, such as `#/components/schemas/Pet/properties/id` or
  `#/components/parameters/Limit`, is lost, and a dangling one may hit something in the merged document. Under the
  names OpenAPI allows these are the only losses (`OpenApiMeaning.LostReferences`), and merging keeps the meaning of
  the path items and schemas of a document exactly when they hold none of them
  (`OpenApiMeaning.MeaningIsKeptIffNothingIsLost`).
- The magic number of the mission container is documented as the letters PMAV. Its bytes, written low byte first,
  spell PAMV (`MavlinkRoundTrip.Layout`).
- The comments in the history query say the raw and the aggregate sources conserve sample counts alike. For an
  aggregate that holds for all samples if and only if the range starts on one of its row boundaries and ends just
  before one (`HistoryMeaning.AggregateConservesIff`).

## Model
| member | source | states |
|---|---|---|
| Geometry.SegmentsIntersectIffSharePoint | services/mission-planning/src/geofences/geometry.ts:61-79 | the test is true exactly when the two closed segments have a common point, with collinear overlap, touching and zero-length segments included |
| Geometry.OnSegmentIff | services/mission-planning/src/geofences/geometry.ts:33-51 | zero orientation plus the bounding box characterise the points of a closed segment |
| EvenOdd.PointInPolygon | services/mission-planning/src/geofences/geometry.ts:95-116 | the toggling loop computes the parity of the edges crossed by the rightward ray |
| EvenOdd.TogglesIffRayCrosses | services/mission-planning/src/geofences/geometry.ts:103-113 | an edge toggles exactly when the ray from the point meets it, an end level with the point counting as below |
| EvenOdd.CrossingRule | services/mission-planning/src/geofences/geometry.ts:95-116 | Jordan's crossing rule: along a segment that meets a closed ring only across the middle of edges, the even-odd status changes once per edge met |
| EvenOdd.MissingSegmentHasOneStatus | services/mission-planning/src/geofences/geometry.ts:118-136 | a segment that misses every edge has one even-odd status at all its points |
| ConflictDetection.SegmentIntersectsPolygon | services/mission-planning/src/geofences/geometry.ts:123-136 | the edge loop with its early exit decides whether some edge has a point in common with the segment |
| ConflictDetection.FlaggedIffTouchesOrEnters | services/mission-planning/src/geofences/geometry.ts:170-193 | testing edges and end points is complete: it flags a segment exactly when one of its points is on the boundary or inside |
| ConflictDetection.DetectConflicts | services/mission-planning/src/geofences/geometry.ts:170-193 | the nested loops emit the conflicts by segment, then by zone |
| ConflictDetection.ConflictsAreExact | services/mission-planning/src/geofences/geometry.ts:139-193 | a conflict is emitted for a segment and a zone exactly when some point of the leg between the two waypoints, x being the longitude and y the latitude, is on or inside the zone |
| ConflictDetection.NoConflictIffRouteClear | services/mission-planning/src/geofences/geometry.ts:139-193 | no conflict is reported exactly when no point of the route, so placed, is on or inside any zone |
| ConflictDetection.ConflictsAreListed | services/mission-planning/src/geofences/geometry.ts:170-193 | the conflicts come by segment and then by zone, one for each segment and zone that have a point in common |
| ConflictDetection.BeyondIsOutside | services/mission-planning/src/geofences/geometry.ts:95-116 | points beyond a ring on any side are outside it |
| ConflictDetection.EscapeMeetsBoundary | services/mission-planning/src/geofences/geometry.ts:123-136 | a path from inside a ring to beyond it has a leg that meets the boundary |
| GeofenceValidation.IsSelfIntersecting | services/mission-planning/src/geofences/geofence-validation.ts:43-81 | the pair loops find whether some pair of edges is bad by the code's own pair test |
| GeofenceValidation.StrictlyOnSegmentIff | services/mission-planning/src/geofences/geofence-validation.ts:121-137 | the strict test accepts the points of the closed segment other than its ends |
| GeofenceValidation.FoldsIff | services/mission-planning/src/geofences/geofence-validation.ts:104-118 | for edges of positive length the overlap test says exactly that adjacent edges share more than their vertex |
| GeofenceValidation.SimpleIffNoBadPair | services/mission-planning/src/geofences/geofence-validation.ts:43-118 | no bad pair exactly when the vertices form a simple polygon as a point set |
| GeofenceValidation.ValidateGeofencePolygon | services/mission-planning/src/geofences/geofence-validation.ts:151-209 | no errors exactly for closed, in-range, simple rings of four points or more; an error is listed exactly when it is justified |
| GeofenceValidation.AcceptedRingsAreClosed | services/mission-planning/src/geofences/geofence-validation.ts:188-200 | accepted rings meet the assumption of the conflict theorems |
| RingInterior.EdgeSeparates | services/mission-planning/src/geofences/geometry.ts:95-116 | just either side of the middle of every edge of a simple polygon, one point is inside and the other is not |
| RingInterior.AcceptedRingHasInside | services/mission-planning/src/geofences/geofence-validation.ts:151-209 | every accepted ring encloses some point |
| Tracking.FindBest | services/vision-ai/app/services/tracking.py:296-311 | the best-so-far loop returns the first of the best admissible unmatched tracks |
| Tracking.AssociateOne | services/vision-ai/app/services/tracking.py:293-339 | one detection extends its best track or spawns a new one |
| Tracking.StitchTracks | services/vision-ai/app/services/tracking.py:237-349 | the whole call, with its error for malformed boxes, against its specification |
| StableMatching.OrderedByPriority | services/vision-ai/app/services/tracking.py:291-293 | detections are served most confident first, equally confident ones by id (strings compare as `Sorting.StringBeforeIff` says) |
| StableMatching.GreedyIsTheStableMatching | services/vision-ai/app/services/tracking.py:284-341 | the loop's matching is stable (one track each, of the same class and with enough overlap; a track that a detection would rather have is held by a more confident one, or an equally confident one of an earlier id), and a matching is stable exactly when it makes the same choices |
| StableMatching.StableIsUnique | services/vision-ai/app/services/tracking.py:284-341 | a frame has at most one stable matching |
| StableMatching.AssociationIgnoresListing | services/vision-ai/app/services/tracking.py:293-294 | listing the detections in another order changes no association |
| StableMatching.StitchLabels | services/vision-ai/app/services/tracking.py:205-347 | every detection comes back unchanged but for its track id, that of its track in the stable matching or a new one; overlaps are taken with each track's box moved by its velocity for dt |
| StableMatching.LabelsDiffer | services/vision-ai/app/services/tracking.py:231-347 | no two detections of a frame get the same track id |
| TrackRuns.StitchEffect | services/vision-ai/app/services/tracking.py:237-349 | what one call does to the set of live tracks and to each of them: class, time, box, and the velocity that took it there in dt; a track is kept while it is no older than max_age at the frame's time |
| TrackRuns.TracksKeepTheirOrder | services/vision-ai/app/services/tracking.py:284-344 | the tracks come back in the order they were in, the new ones after them as their detections were served |
| TrackRuns.RunInvariantHolds | services/vision-ai/app/services/tracking.py:237-349 | over every sequence of frames, labels, classes and live tracks stay consistent with the whole history |
| TrackRuns.TrackIdsAreConsistent | services/vision-ai/app/services/tracking.py:237-349 | all detections ever carrying a track id have one class, with at most one per frame |
| TrackRuns.LiveTracksAreRemembered | services/vision-ai/app/services/tracking.py:341-344 | a live track's id was used by its class only and last at its recorded time |
| TrackRuns.FreshFromHistory | services/vision-ai/app/services/tracking.py:231-234 | spawned ids never collide with live ones in a run |
| TrackRuns.RetiredNeverReappears | services/vision-ai/app/services/tracking.py:341-349 | a used id that is no longer live is never returned again |
| EscalationTimer.Timer.DueEntries | services/alert-notification/src/alerts/escalation.timer.ts:69-77 | reads back exactly the due timers, once each, by due time and then id |
| EscalationService.EscalationService.CreateAlert | services/alert-notification/src/alerts/escalation.service.ts:100-115 | the whole new record of the alert: open, level 0, due one interval later; no other alert changes |
| EscalationService.EscalationService.Acknowledge | services/alert-notification/src/alerts/escalation.service.ts:125-148 | the record after acknowledgement, the error cases, and that no other alert changes |
| EscalationService.EscalationService.ProcessDueAlert | services/alert-notification/src/alerts/escalation.service.ts:171-248 | record, contact and returned action of one due alert, and that no other alert changes; the decision is a legal transition (`TickTransitionsAreLegal`) |
| EscalationService.EscalationService.TickEscalations | services/alert-notification/src/alerts/escalation.service.ts:156-168 | a sweep steps every due alert once, nothing else, and returns their actions in due order |
| EscalationRuns.Perform | services/alert-notification/src/alerts/escalation.service.ts:100-168 | every call is one event of the run model, for all alert ids at once |
| EscalationRuns.InvariantHolds | services/alert-notification/src/alerts/escalation.service.ts:100-248 | in every reachable state the timer holds exactly the open alerts, level <= chain length, the notified contacts are exactly the chain's first `level` entries in order, and the status history is legal |
| EscalationRuns.OpenAlertDueTime | services/alert-notification/src/alerts/escalation.service.ts:171-248 | an open alert is due (level + 1) intervals of its rule after creation, in minutes, one for a rule that is gone or has none |
| EscalationRuns.CreationStarts | services/alert-notification/src/alerts/escalation.service.ts:100-115 | a created alert is open at level 0, unacknowledged, due its interval of whole minutes (one if it has none) later |
| EscalationRuns.OtherCallsDoNothing | services/alert-notification/src/alerts/escalation.service.ts:100-168 | calls about other alerts, and sweeps before the alert is due, leave its record, timer and history alone |
| EscalationRuns.DueSweepIsToldExactly | services/alert-notification/src/alerts/escalation.service.ts:171-248 | over every run, what a due sweep does and returns: the next contact notified, the level and status after it, the next due time, and an action that tells just that |
| EscalationRuns.ActionsNameTheChain | services/alert-notification/src/alerts/escalation.service.ts:171-248 | over every run the actions returned for an alert name exactly its chain's first `level` contacts, in order |
| EscalationRuns.SweepNamesContact | services/alert-notification/src/alerts/escalation.service.ts:156-168 | a sweep's list of actions names, for every due alert, the contact of that alert's one action |
| EscalationRuns.ActionsInDueOrder | services/alert-notification/src/alerts/escalation.service.ts:156-168 | when all due alerts step, the list of a sweep holds their actions in due order |
| EscalationRuns.AcknowledgementApplies | services/alert-notification/src/alerts/escalation.logic.ts:81-89 | over every run, acknowledging an open or escalated alert makes it acknowledged, records time and user, cancels its timer, adds one status to its history and changes nothing else |
| EscalationRuns.NobodyNamedAfterAcknowledgement | services/alert-notification/src/alerts/escalation.service.ts:125-248 | once anybody has acknowledged a created alert, no call ever notifies or names a contact for it again |
| EscalationRuns.AcknowledgedIsFinal | services/alert-notification/src/alerts/escalation.service.ts:125-248 | after acknowledgement nothing about the alert ever changes and no action names a contact for it, a second acknowledgement included (`AcknowledgeIsIdempotent`) |
| EscalationRuns.SweepsToEscalate | services/alert-notification/src/alerts/escalation.logic.ts:155-185 | each due sweep climbs one level, with the remaining chain as the decreasing measure |
| EscalationRuns.EscalatesAfterExactly | services/alert-notification/src/alerts/escalation.logic.ts:155-185 | an alert nobody acknowledges is ESCALATED exactly when max(1, chain length) sweeps have found it due |
| EscalationRuns.LeftAloneItEscalates | services/alert-notification/src/alerts/escalation.logic.ts:155-185 | a run that meets all assumptions and ends escalated, its contact named |
| EscalationRuns.DueSweepMakesProgress | services/alert-notification/src/alerts/escalation.service.ts:171-248 | a due sweep reschedules strictly later or ends the escalation |
| MavlinkCodec.WriteItem | services/mission-planning/src/export/mavlink.ts:180-207 | the field writes of one item put its 38 bytes at the offset and fail exactly when a field does not fit |
| MavlinkCodec.EncodeBinary | services/mission-planning/src/export/mavlink.ts:180-207 | no write leaves the buffer; encoding fails exactly when a field or the count does not fit, else gives the specified bytes |
| MavlinkCodec.ParseMavlink | services/mission-planning/src/export/mavlink.ts:217-255 | the parser's checks in their order, and the items read |
| MavlinkRoundTrip.ParsesToIffEncodes | services/mission-planning/src/export/mavlink.ts:180-255 | a buffer with zero reserved byte parses to a list exactly when it is that list's encoding |
| MavlinkRoundTrip.RoundTrip | services/mission-planning/src/export/mavlink.ts:180-255 | parsing an encoded list returns it, for every list whose fields fit |
| MavlinkRoundTrip.ReEncode | services/mission-planning/src/export/mavlink.ts:180-255 | re-encoding what an accepted buffer parses to gives the buffer back, reserved byte cleared |
| MavlinkRoundTrip.EncodingIsInjective | services/mission-planning/src/export/mavlink.ts:180-207 | different lists have different encodings |
| MavlinkRoundTrip.Layout | services/mission-planning/src/export/mavlink.ts:180-207 | the bytes of an encoded list, one by one: the header, and every field of every item at its offset, low byte first |
| MavlinkRoundTrip.EncodableIff | services/mission-planning/src/export/mavlink.ts:180-207 | what can be encoded: at most 65535 items, each field within its width |
| MavlinkRoundTrip.RefusedIff | services/mission-planning/src/export/mavlink.ts:217-229 | which buffers are refused and with which error, byte by byte |
| WaypointValidation.ValidateWaypoints | services/mission-planning/src/missions/waypoint-validation.ts:42-83 | no errors exactly for valid missions; a field is named exactly when it is out of range, the sequence exactly when it is not contiguous |
| WaypointValidation.ValidateSequence | services/mission-planning/src/missions/waypoint-validation.ts:90-102 | an error exactly when the seq values are not 0 to n - 1, each once |
| WaypointValidation.SequenceTestIsExact | services/mission-planning/src/missions/waypoint-validation.ts:90-102 | sorting and comparing with the index accepts exactly the contiguous sequences |
| MissionExport.BuildMissionItems | services/mission-planning/src/export/mavlink.ts:117-172 | the item list: a takeoff at the first waypoint, then the waypoints sorted by seq; an error for none |
| MissionExport.ItemsOfValidMission | services/mission-planning/src/export/mavlink.ts:91-172 | field by field: item 0 takes off at the waypoint of seq 0, item k + 1 flies to the waypoint of seq k, with latitude and longitude rounded to ten-millionths of a degree, halves up |
| MissionExport.ValidMissionExportsIff | services/mission-planning/src/export/mavlink.ts:91-207 | a valid non-empty mission exports exactly when it has at most 65534 waypoints; its coordinates fit int32 |
| MissionExport.ExportMavlink | services/mission-planning/src/export/mavlink.ts:273-279 | the items in either format, their bytes in the binary one only, with the errors of building and encoding |
| MissionExport.OrderOfWaypointsIsIrrelevant | services/mission-planning/src/export/mavlink.ts:117-207 | listing a valid mission in another order changes neither items nor bytes |
| MissionExport.ExportRoundTrip | services/mission-planning/src/export/mavlink.ts:117-255 | the exported bytes parse back to the mission's items |
| TelemetryBounds.MonotonicTimestampGate.Accept | services/telemetry-ingestion/src/persist/bounds.ts:53-90 | accepts and remembers a later timestamp of a drone, else changes nothing |
| TelemetryBounds.GateIsExact | services/telemetry-ingestion/src/persist/bounds.ts:53-90 | the gate accepts exactly the samples that keep every drone's accepted times strictly increasing |
| Persister.BatchingPersister.Offer | services/telemetry-ingestion/src/persist/persister.ts:71-86 | decision and whole new state for one sample |
| Persister.BatchingPersister.Flush | services/telemetry-ingestion/src/persist/persister.ts:92-97 | appends one link to the flush chain |
| Persister.BatchingPersister.RunNextLink | services/telemetry-ingestion/src/persist/persister.ts:92-107 | a link takes the whole buffer as its batch, or is skipped after a rejection |
| Persister.BatchingPersister.InsertSucceeded | services/telemetry-ingestion/src/persist/persister.ts:99-107 | the batch in flight is settled and counted |
| Persister.BatchingPersister.InsertFailed | services/telemetry-ingestion/src/persist/persister.ts:99-107 | the batch in flight is settled as lost and the error handler called |
| Persister.BatchingPersister.Stop | services/telemetry-ingestion/src/persist/persister.ts:110-116 | clears the timer and flushes |
| PersisterRuns.Perform | services/telemetry-ingestion/src/persist/persister.ts:71-116 | every call and continuation is one step of the run model |
| PersisterRuns.NothingLostOrReordered | services/telemetry-ingestion/src/persist/persister.ts:71-107 | under every interleaving: accepted samples are the settled batches in order, then the one in flight, then the buffer |
| PersisterRuns.LinkTakesTheBuffer | services/telemetry-ingestion/src/persist/persister.ts:92-107 | a link that runs and is not skipped takes the whole buffer as its batch, or settles at once when it is empty |
| PersisterRuns.OfferIsExact | services/telemetry-ingestion/src/persist/persister.ts:71-86 | after every run a sample is accepted exactly when it is in range and newer than everything accepted of its drone, else counted for the first of these; an accepted one is buffered, and a flush queued exactly when the buffer has reached the batch size |
| PersisterRuns.StoredSamplesAreGood | services/telemetry-ingestion/src/persist/persister.ts:71-107 | stored samples are in range, strictly increasing in time per drone, and correctly counted |
| PersisterRuns.DrainedFlushIsComplete | services/telemetry-ingestion/src/persist/persister.ts:92-107 | a drained flush settles only after all samples accepted before the call are in batches that were answered for, stored or not |
| PersisterRuns.DrainedFlushIsWrittenIff | services/telemetry-ingestion/src/persist/persister.ts:88-107 | everything accepted before a drained flush is in the store exactly when no insert failed of a batch that begins among those samples |
| PersisterRuns.StoredIffNothingLost | services/telemetry-ingestion/src/persist/persister.ts:99-107 | the first m settled samples are all stored exactly when no batch that begins among them is lost |
| PersisterRuns.FailedInsertLosesItsBatch | services/telemetry-ingestion/src/persist/persister.ts:92-107 | a concrete run whose flush settles with its only sample not stored |
| PersisterRuns.SettledFlushIsComplete | services/telemetry-ingestion/src/persist/persister.ts:92-107 | with handlers that never throw, a settled flush leaves nothing accepted before the call pending |
| PersisterRuns.NextFlushIncompleteIff | services/telemetry-ingestion/src/persist/persister.ts:92-107 | exactly when a flush settles without its work done |
| PersisterRuns.ChainIsRejectedIff | services/telemetry-ingestion/src/persist/persister.ts:92-107 | the chain is left rejected exactly by a throwing error handler, for a failed insert or for the rejection before |
| PersisterRuns.ThrowingHandlerLosesAFlush | services/telemetry-ingestion/src/persist/persister.ts:92-107 | a concrete run in which a throwing handler leaves a sample behind |
| Routing.NormalizePath | services/api-gateway/src/routing/upstreams.ts:108-125 | the step-by-step rewriting computes the normal form; the normal forms are the paths it leaves alone, so normalising again changes nothing (`NormalizationIsProjection`) |
| Routing.NormalizedIsExact | services/api-gateway/src/routing/upstreams.ts:108-125 | whatever its query, fragment and trailing slashes, a path is normalized to what is in front of them, with a leading slash (every path is so made up, `EveryPathIsMadeOf`) |
| Routing.LeadingSlashIsSingleIff | services/api-gateway/src/routing/upstreams.ts:103-125 | exactly when the normal form has the single leading slash that is documented |
| Routing.TwoSlashesStay | services/api-gateway/src/routing/upstreams.ts:103-125 | the paths //a and // and what becomes of them |
| Routing.TwoSlashesReachNobody | services/api-gateway/src/routing/upstreams.ts:56-151 | a path that keeps two leading slashes reaches no upstream of the shipped table |
| Routing.ResolveUpstreamId | services/api-gateway/src/routing/upstreams.ts:140-151 | the first definition whose prefix owns the normal form, or none |
| Routing.OwnedIff | services/api-gateway/src/routing/upstreams.ts:128-130 | a path belongs to a prefix exactly when it is the prefix or has a slash right after it |
| Routing.ResolveIsFirst | services/api-gateway/src/routing/upstreams.ts:140-151 | of several owners the first in the table is taken |
| Routing.LongerWordsReachNobody | services/api-gateway/src/routing/upstreams.ts:56-130 | no upstream of the shipped table gets a path that goes on from its prefix with anything but a slash, such as /missions-old |
| Routing.AssertDisjointPrefixes | services/api-gateway/src/routing/upstreams.ts:167-191 | passes exactly for pairwise disjoint tables, else the error names two entries' prefixes of which one equals or is below the other |
| Routing.DisjointIffOwnersUnique | services/api-gateway/src/routing/upstreams.ts:128-191 | the pairwise check accepts exactly the tables in which no path has two owners |
| Routing.OwnerIsFound | services/api-gateway/src/routing/upstreams.ts:140-151 | with disjoint prefixes a path's owner is found wherever it stands |
| Routing.OrderIsIrrelevant | services/api-gateway/src/routing/upstreams.ts:140-151 | reordering a disjoint table changes no resolution |
| Routing.ConfiguredPrefixesAreGood | services/api-gateway/src/routing/upstreams.ts:56-93 | the shipped table is disjoint and its prefixes are routing paths |
| Routing.JoinedPathIs | services/api-gateway/src/openapi/merge-openapi.ts:89-95 | the merged key: prefix and path with one slash between them where the path has none, the prefix alone for the root |
| Routing.JoinedKeysCollideIff | services/api-gateway/src/openapi/merge-openapi.ts:89-95 | two published paths of a disjoint table share a merged key exactly when they have one prefix and differ at most in a missing leading slash |
| Routing.PublishedPathsRouteBackIff | services/api-gateway/src/openapi/merge-openapi.ts:89-140 | every merged path of an upstream routes back to it exactly when its prefix is a routing path or empty |
| OpenApiMerge.TagPathItemLoop | services/api-gateway/src/openapi/merge-openapi.ts:166-177 | the method loop tags exactly the operations of a path item |
| OpenApiTables.ItemIsTagged | services/api-gateway/src/openapi/merge-openapi.ts:166-177 | key by key: an operation under one of the eight methods without tags gets the tag, and nothing else of the item changes |
| OpenApiTables.SpreadIs | services/api-gateway/src/openapi/merge-openapi.ts:168 | a path item that is an array or a text is spread into its positions, any other that is no object into nothing |
| OpenApiMerge.QualifiedNamesDiffer | services/api-gateway/src/openapi/merge-openapi.ts:53-130 | with different namespaces qualified schema names never collide |
| OpenApiTables.NamespaceOfWord | services/api-gateway/src/openapi/merge-openapi.ts:53-59 | each part with a capital letter (FleetRegistry of fleet-registry) |
| OpenApiTables.NamespaceOfParts | services/api-gateway/src/openapi/merge-openapi.ts:53-59 | an upstream's namespace is made part by part of its id, whatever separates the parts |
| OpenApiMerge.MergeOpenApiDocuments | services/api-gateway/src/openapi/merge-openapi.ts:107-163 | the loops over upstreams, paths and schemas, and the document put around their tables, against their specification |
| OpenApiTables.DocumentTellsItself | services/api-gateway/src/openapi/merge-openapi.ts:117-163 | version, info and one tag for each document merged |
| OpenApiMeaning.TablesOfDocument | services/api-gateway/src/openapi/merge-openapi.ts:124-134 | the schemas and paths that are merged are those that stand in the document where its readers look for them, and none if it has none |
| OpenApiTables.SchemaIsMerged | services/api-gateway/src/openapi/merge-openapi.ts:142-148 | every schema stands in the merged document under its qualified name, rewritten |
| OpenApiTables.MergedKeysAreQualified | services/api-gateway/src/openapi/merge-openapi.ts:142-148 | the merged schema table holds nothing else |
| OpenApiTables.PathsArePublished | services/api-gateway/src/openapi/merge-openapi.ts:132-140 | the merged path table, key by key: the last path of the last upstream that is re-based to it |
| OpenApiPointer.DescendRewritten | services/api-gateway/src/openapi/merge-openapi.ts:68-86 | rewriting changes what a JSON Pointer reaches inside a schema, never whether it reaches anything (section 4 of RFC 6901; escaped names read back, `EscapedReadsBack`) |
| OpenApiTables.QualifiedHits | services/api-gateway/src/openapi/merge-openapi.ts:142-148 | a pointer into the merged schema table resolves exactly when it starts with the qualified name of some upstream's schema and the rest resolves in that schema |
| OpenApiTables.HitsAreExact | services/api-gateway/src/openapi/merge-openapi.ts:107-163 | whether a local reference resolves in the merged document, for every reference, told from the upstreams' documents |
| OpenApiMeaning.MergedCarries | services/api-gateway/src/openapi/merge-openapi.ts:107-163 | given distinct namespaces the merged document holds each upstream's schemas, rewritten, under marked names, and no other schema so marked |
| OpenApiMeaning.ReferenceIsCarriedIff | services/api-gateway/src/openapi/merge-openapi.ts:68-163 | a local reference goes to the same place of the same schema after the merge, or to nowhere in both, exactly when it names an own schema, or dangles in its own document and hits nothing of the others; the condition reads the upstreams' documents only |
| OpenApiMeaning.LostReferences | services/api-gateway/src/openapi/merge-openapi.ts:68-163 | under plain schema names the local references not kept are exactly those that resolve to anything but a whole own schema and the dangling ones that hit something of the merged document, told from the upstreams' documents |
| OpenApiReferences.KeptMeansTheSame | services/api-gateway/src/openapi/merge-openapi.ts:68-86 | with all local references kept, rewriting commutes with unfolding them to any depth |
| OpenApiReferences.SameMeaningIsKept | services/api-gateway/src/openapi/merge-openapi.ts:68-86 | a fragment that unfolds to the same already at depth one has all its local references kept |
| OpenApiMeaning.MeaningIsKeptIff | services/api-gateway/src/openapi/merge-openapi.ts:107-163 | merging keeps the meaning of every path item and schema of a document, to every depth, exactly when all their local references are kept |
| OpenApiMeaning.MeaningIsKeptIffNothingIsLost | services/api-gateway/src/openapi/merge-openapi.ts:107-163 | under plain schema names that is so exactly when no path item and no schema mentions a lost reference, a condition on the upstreams' documents |
| OpenApiMeaning.ReferencesKeepTheirMeaning | services/api-gateway/src/openapi/merge-openapi.ts:68-163 | with distinct namespaces and all local references kept, a rewritten fragment unfolds in the merged document to what it unfolded to in its own, to any depth |
| OpenApiTables.PublishedKeysAreUnique | services/api-gateway/src/openapi/merge-openapi.ts:132-140 | with a disjoint routing table merged path keys never collide |
| OpenApiTables.PathIsMerged | services/api-gateway/src/openapi/merge-openapi.ts:132-140 | every published path then stands under its re-based key, tagged and rewritten |
| OpenApiMeaning.MergedPathMeansTheSame | services/api-gateway/src/openapi/merge-openapi.ts:107-177 | under the same conditions each merged path item unfolds to the upstream's own item, tagged with its title |
| OpenApiMeaning.NamedReferenceIsKept | services/api-gateway/src/openapi/merge-openapi.ts:107-163 | a document that refers to its one schema by name meets all these conditions (`PublishingDocument` gives one) |
| OpenApiMeaning.OtherComponentIsLost | services/api-gateway/src/openapi/merge-openapi.ts:150-151 | a reference to a component other than a schema that resolves in its own document dangles in the merged one and changes its meaning, whatever else is merged |
| OpenApiMeaning.ComponentUseIsLost | services/api-gateway/src/openapi/merge-openapi.ts:150-151 | so does the path item of an operation that uses such a component |
| OpenApiMeaning.LossOfLimit | services/api-gateway/src/openapi/merge-openapi.ts:150-151 | so it is for GET /drones with #/components/parameters/Limit |
| OpenApiMeaning.DeepReferenceIsLost | services/api-gateway/src/openapi/merge-openapi.ts:68-86 | a reference two levels into a schema resolves in its own document, resolves to nothing in the merged one, and the path item changes its meaning |
| OpenApiMeaning.LossOfPetId | services/api-gateway/src/openapi/merge-openapi.ts:68-86 | so it is for Pet/properties/id |
| OpenApiMeaning.DanglingReferenceIsCaptured | services/api-gateway/src/openapi/merge-openapi.ts:68-86 | a dangling reference that is another upstream's merged schema name resolves to that schema, and the path item changes its meaning |
| OpenApiMeaning.CaptureOfBX | services/api-gateway/src/openapi/merge-openapi.ts:53-86 | so it is for B_X beside an upstream b with a schema X |
| RateLimit.CounterStore.Eval | services/api-gateway/src/rate-limit/rate-limiter.service.ts:39-46 | the script's effect on the counters and its two results |
| RateLimit.RateLimiterService.Consume | services/api-gateway/src/rate-limit/rate-limiter.service.ts:73-90 | decision and new counters for one request |
| RateLimitRuns.KeysAreDistinct | services/api-gateway/src/rate-limit/rate-limit.ts:80-83 | counter keys tell roles and windows apart |
| RateLimitRuns.CounterIsExact | services/api-gateway/src/rate-limit/rate-limiter.service.ts:39-90 | over every history a window's counter has counted exactly its requests and lives one window length from the first of them |
| RateLimitRuns.DecisionByCount | services/api-gateway/src/rate-limit/rate-limit.ts:46-65 | a request is allowed exactly while its role's requests in its window are within the limit, and told the limit and how many are left |
| RateLimitRuns.WindowsAreAligned | services/api-gateway/src/rate-limit/rate-limit.ts:67-83 | a time is in window w exactly when it is in the w-th stretch of the window length |
| RateLimitRuns.AllowedPerWindow | services/api-gateway/src/rate-limit/rate-limiter.service.ts:73-90 | each role is allowed exactly min(requests, limit) per aligned window |
| RateLimitRuns.BurstIsBounded | services/api-gateway/src/rate-limit/rate-limiter.service.ts:73-90 | at most twice the limit in any half-open interval of one window length |
| RateLimitRuns.WaitingReachesALaterWindow | services/api-gateway/src/rate-limit/rate-limit.ts:46-65 | a denied client that waits Retry-After (section 7.1.3 of RFC 7231) lands in a later window |
| RateLimitRuns.RetryAfterIsTimeToResetIff | services/api-gateway/src/rate-limit/rate-limit.ts:24-65 | a denied request is told the time to the reset plus the lateness of its window's first request; in whole seconds that is the time to the reset exactly when the lateness fits into the rounding |
| RateLimitRuns.LateFirstRequest | services/api-gateway/src/rate-limit/rate-limit.ts:46-65 | a history in which the window ends in 29 seconds and the client is told 59 |
| DispatchLogic.BackoffGrows | services/alert-notification/src/notifications/dispatch/dispatch.logic.ts:53-60 | under a sane policy, which resolving always yields (`ResolvedIffSane`; its values are in `ResolvedFields`), delays lie in [0, maxDelay] and never shrink from one attempt to the next |
| DispatchLogic.BackoffIsGeometric | services/alert-notification/src/notifications/dispatch/dispatch.logic.ts:53-60 | the first delay is the base delay and each next one the factor times it, up to the cap |
| DispatchLogic.KeyIdentifiesDestination | services/alert-notification/src/notifications/dispatch/dispatch.logic.ts:68-80 | two channels have one key exactly when type and target agree, a missing target counting as empty |
| DispatchLogic.FanOutChannels | services/alert-notification/src/notifications/dispatch/dispatch.logic.ts:68-80 | the seen-set loop keeps the channels at the positions where a destination is named first |
| DispatchLogic.FirstPositionsAreExact | services/alert-notification/src/notifications/dispatch/dispatch.logic.ts:68-80 | those positions are exactly the non-repeating ones, ascending |
| DispatchLogic.FanOutIsExact | services/alert-notification/src/notifications/dispatch/dispatch.logic.ts:68-80 | every configured destination is reached exactly once and no other, as first named and in that order |
| Dispatch.DispatchService.Deliver | services/alert-notification/src/notifications/dispatch/dispatch.service.ts:139-163 | the retry loop against its specification, with everything it does outside |
| Dispatch.DispatchService.Dispatch | services/alert-notification/src/notifications/dispatch/dispatch.service.ts:76-133 | the two loops against their specification, with everything they do outside |
| DispatchRuns.DeliveryIsExact | services/alert-notification/src/notifications/dispatch/dispatch.service.ts:139-163 | a delivery makes 1 to maxAttempts sends, ends at the first success, and fails only after the last with its error |
| DispatchRuns.PausesAreBounded | services/alert-notification/src/notifications/dispatch/dispatch.service.ts:139-163 | the pauses of a delivery never get shorter and sum to at most (maxAttempts - 1) * maxDelay |
| DispatchRuns.DispatchIsExact | services/alert-notification/src/notifications/dispatch/dispatch.service.ts:76-133 | for every behaviour of the transports: one primary per distinct channel in first-named order, then in-app fallbacks; none after a failed in-app result, one per failed channel until then; all delivered exactly when every primary is |
| DispatchRuns.DispatchIsTraced | services/alert-notification/src/notifications/dispatch/dispatch.service.ts:76-163 | every delivered flag, attempt count and error of the report is what the transports answered when tried one after the other, with nothing but failure marks in between; an unregistered type is sent nothing |
| DispatchRuns.DispatchAccounted | services/alert-notification/src/notifications/dispatch/dispatch.service.ts:76-163 | every send is a reported attempt, and the recorded failures are the reported ones in order |
| Scene.TrailingStationarySpan | services/vision-ai/app/services/scene.py:145-162 | the backward loop returns the span of the run found by recursion |
| Scene.ClassifySceneEvents | services/vision-ai/app/services/scene.py:170-269 | the nested loops with their dictionaries against their specification, the failing case included |
| SceneMeaning.RunStartIsLongest | services/vision-ai/app/services/scene.py:145-162 | the run is the longest trailing one of slow steps |
| SceneMeaning.SpanExceedsIff | services/vision-ai/app/services/scene.py:145-162 | the span exceeds a threshold exactly when some trailing run of steps, each shorter than the given distance, takes longer than it |
| SceneMeaning.ClassifiedIsExact | services/vision-ai/app/services/scene.py:170-269 | the result is sorted by the kind's name, zone, time and ids, and holds exactly the declared events, told from the zones' cover of the samples; it fails exactly when a negative threshold meets an empty zone |
| SceneMeaning.HistoryIsTheLastOnes | services/vision-ai/app/services/scene.py:129-136 | the history is that of the last track listed with the id, by time and then by position |
| SceneMeaning.ListedOnce | services/vision-ai/app/services/scene.py:206-267 | with distinct ids no event is listed twice |
| SceneMeaning.ListingOrderIsIrrelevant | services/vision-ai/app/services/scene.py:129-269 | with distinct ids the result does not depend on the order of tracks, samples or zones |
| SceneOrder.HistoryIgnoresListing | services/vision-ai/app/services/scene.py:129-136 | the ordered history depends only on which samples there are |
| HistoryMeaning.AcceptedIff | services/telemetry-ingestion/src/query/history.ts:148-197 | a query is accepted exactly when the drone is named, both ends parse in order and the bucket count resolves, and is then for that drone, those ends and that count; else the error is that of the first that fails; the characters trimmed are listed in `SpacesAre` |
| HistoryMeaning.PlanIsLeast | services/telemetry-ingestion/src/query/history.ts:206-238 | the width is the least whole number of seconds, at least one, whose buckets cover the range (the source it reads is the coarsest not wider, `SourceIsCoarsest`) |
| HistoryMeaning.AtMostOneTooMany | services/telemetry-ingestion/src/query/history.ts:248-296 | at most buckets + 1 buckets are occupied, and one past the limit starts at exactly the range end |
| HistoryMeaning.OverflowsIff | services/telemetry-ingestion/src/query/history.ts:248-296 | the limit cuts something exactly when every bucket is occupied, up to the one at the range end |
| HistoryMeaning.AnswerIsExact | services/telemetry-ingestion/src/query/history.ts:248-296 | buckets are on the grid within the range, ascending, within the limit, each occupied and with the count of the samples of its stretch; together they count all selected samples except, on overflow, those at exactly the range end |
| HistoryMeaning.EveryRowHasItsBucket | services/telemetry-ingestion/src/query/history.ts:248-296 | every row that is counted lies in a bucket of the answer |
| HistoryMeaning.AggregateConservesIff | services/telemetry-ingestion/src/query/history.ts:240-296 | read from an aggregate, the answer's counts add up to the samples of the range, whatever they are, exactly when the range starts on a row boundary and ends just before one |
| HistoryMeaning.PlannedAggregateConservesIff | services/telemetry-ingestion/src/query/history.ts:206-296 | so it is for the aggregate the plan chooses |
| HistoryMeaning.UnalignedHour | services/telemetry-ingestion/src/query/history.ts:206-296 | a query from half past to half past loses a sample at its start |

## Left out

- IEEE rounding, NaN and overflow: coordinates, times, delays and thresholds are exact; a 32-bit float of the MAVLink container is an opaque word, and rounding to it is a parameter.
- Overlap of oriented boxes and containment in a zone polygon are parameters, as are the runtime's date and number parsers.
- Default settings read from the environment: thresholds, gates and policies are parameters.
- Database, Redis and queue adapters: only the map, sorted set and counter they stand for are kept. Each service call is one atomic step, so races between acknowledgement and a sweep are not covered.
- Alert ids are new at creation, detection ids are distinct over a run, and escalation rules do not change during a run; alerts are raised with their rule's own interval.
- Alerts are never closed by the service, so CLOSED occurs only as an input of its decisions.
- EscalationService.EscalationService.ProcessDueAlert: the dispatcher is given the alert and the rule's channels but not the contact; the model leaves the channels out and logs the contact that the returned action names.
- Percent-encoding inside references: a pointer's tokens are decoded for ~0 and ~1 only. References into other documents are plain text, which the merge leaves alone.
- OpenApiMeaning.MeaningIsKeptIff: every reference to a place other than a schema counts as lost, also one to a path item under an empty prefix, where the tagged copy keeps its place; no shipped prefix is empty.
- The rate limiter and its store read one clock; an expired counter counts as absent, its removal is not a step.
- The in-app transport is taken to declare the in-app type, as its registration does; whether the failure recorder itself fails is not modelled, since its errors are swallowed.
- Message texts of errors and their order within a validation; which field an error names is modelled.
- JavaScript objects list integer-like keys first and treat `__proto__` specially; JSON objects here keep insertion order throughout.
- Averages, minima and maxima of a history bucket, its row mapping and the SQL text: only which rows form which bucket and how many samples they hold. Sample times are whole milliseconds.
- HTTP, WebSocket and framework plumbing, authentication, dashboards, migrations, and telemetry framing in src/mavlink/codec.ts.
- Rule engine, role table, analytics grouping, maintenance evaluation, template substitution and anomaly thresholds: single-branch members.
