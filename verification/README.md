# Municipal case management: verified model

The system is the backend of a municipal case-management platform: citizens open service requests, officers inspect
them, approvers decide, facilities are booked, buildings are found on a map. Its handlers are transactions on a
PostgreSQL database under READ COMMITTED, with two caches in the process in front of it. This project models the parts
where several handlers, several statements or an index have to agree, and proves what they keep.

Two forms are used. What loops or updates memory in place (the ray scan, extents and sync, the GIS cache, the session
cache's map, the login counter, the placeholder scanners, the handlers of one request when they run alone) is a method
or a class, proved against functions and predicates. What depends on the order of concurrent statements is a state
machine: a state holds the committed rows and every transaction in flight with the locks it holds, an event is one
statement of one transaction, and a run is any sequence of events. An event whose statement would have to wait changes
nothing and can be tried again, an abort may come at any moment, and every theorem is about all runs.

| file | content |
|---|---|
| `Rings.dfy`, `RingGeometry.dfy` | the even-odd ring test over exact reals, its symmetries and its geometric meaning |
| `Polygons.dfy`, `BuildingIndex.dfy` | polygons with holes, extents and centres, the building sync and the search with its prefilter |
| `Workflow.dfy` | statuses, the transition table, actors, rows |
| `RequestInterleaving.dfy`, `RequestRaces.dfy`, `RequestStatuses.dfy` | all handlers on one request at the same time, statement by statement; what races break, and exactly when; from where each status is entered |
| `Inspections.dfy`, `CaseRules.dfy`, `CaseAnswers.dfy`, `CaseFile.dfy` | the same handlers one at a time, with inspections: rules, theorems over runs, what each handler accepts and does by name, and the handlers in place |
| `BookingAllocator.dfy`, `BookingTimes.dfy` | facility bookings: lock, collision query, insert; the order check on time strings |
| `GisCache.dfy` | the bounded file cache with its byte counter, eviction and shared reads |
| `SessionCache.dfy`, `SessionEnd.dfy` | the fast path of authentication in front of the session table; logout and revocation |
| `RoleAdministration.dfy` | access and status changes of accounts, and the last active director |
| `Decimal.dfy`, `RequestNumbers.dfy` | decimal notation with padding; request codes drawn from a counter per year |
| `Placeholders.dfy`, `SqlLexer.dfy`, `BookingFilter.dfy` | question marks to numbered parameters: the scanner, the reference lexer, filters joined from clauses |
| `LoginLockout.dfy` | the failed-login counter and its lock |

Where the program's intention and its code differ, the model follows the code, and a theorem says when the intention
holds:

- The rectangle around a point that preselects buildings loses none of them exactly when a building's sides are at most
  0.006 degrees (`RectangleFoundEverywhereIffSmall`, for rectangles).
- A booking is checked to end after it starts by comparing strings. That is right when both hours have two digits, but
  10:00 to 9:00 passes (`UnpaddedHourSlipsThrough`); `RightUnlessMisread` and `AlwaysRightIff` say exactly when it goes
  wrong.
- Patching a cancelled booking back to an active status can double-book its slot (`ReactivationDoubleBooks`);
  `StatusWriteIsHarmlessIff` says exactly which status writes are harmless, and with only such writes nothing is ever
  double-booked (`NoDoubleBookingInAnyRun`).
- Most handlers log the status they read before they had the lock. Their history row is true exactly when that status is
  still the current one (`LoggedRowIsTrueIff`); a cancellation that loses a race changes nothing and is logged all the
  same (`CancelTakesEffectIffCurrent`, `LostCancelIsTrueIff`).
- Approval submissions, scheduled inspections and patched inspections do not look at the status again under the lock, so
  one that began before a cancellation takes the request out of its terminal status (`SubmissionRaceReopensCancelled`).
  `TerminalIsLeftIffThreatened` gives the exact condition for every reachable state. Even when handlers run alone, a
  terminal request can leave its status, exactly when it has an undecided approval (`TerminalIsLeftIff`).
- A lookup of the latest inspection can return the wrong row exactly when the last two were created at the same time
  (`LatestIsLastIffNoTie`); a search for active inspections is right in any case.
- A cache entry that is cleared or evicted while it is being read again is subtracted from the byte counter twice
  (`ClearDuringReload`); the difference is exactly the ledger `twiceSubtracted`.
- Logout deletes the cached entry before it revokes the session, so an authentication that is on its way can put it back
  for up to three seconds; `LogoutIsFinalIff` says exactly when the token is served again.
- That one director always remains rests on the shared lock on the role's row: with locks on users only, two directors
  can remove each other (`UserLocksAloneLoseTheLastDirector`).
- The query scanner and the lexer agree exactly on the statements in which every question mark is a marker for both or
  for neither (`ScannersAgreeIff`). Comments, dollar quotes, backslashes and mixed quotes can break that
  (`CommentDiffers`, `DollarQuoteDiffers`, `BackslashDiffers`, `MixedQuotesDiffer`), and a digit behind a marker changes
  the parameter that the database reads (`ReadAsMeantIff`).

## Model

| member | source | states |
|---|---|---|
| Rings.PointInRing | src/modules/map/building-resolution.routes.ts:210-317 | the loop answers whether an odd number of the ring's edges with finite ends is crossed by the ray to the east |
| Rings.GuardUnreachable | src/modules/map/building-resolution.routes.ts:297-305 | on an edge that straddles the latitude the EPSILON guard never replaces the divisor |
| Rings.MeetsAtSymmetric | src/modules/map/building-resolution.routes.ts:290-306 | where an edge meets the latitude does not depend on the order of its ends |
| Rings.CrossesSymmetric | src/modules/map/building-resolution.routes.ts:281-306 | the edge test is symmetric in its ends, finite or not |
| Rings.InsideIsPathParity | src/modules/map/building-resolution.routes.ts:223-314 | the count of the loop and the XOR along the ring's path with its closing edge agree |
| Rings.ReversalInvariant | src/modules/map/building-resolution.routes.ts:210-317 | a ring and its reversal give the same answer |
| Rings.RotationInvariant | src/modules/map/building-resolution.routes.ts:210-317 | a ring may start at any vertex |
| Rings.ClosingInvariant | src/modules/map/building-resolution.routes.ts:210-317 | repeating the first vertex at the end changes nothing |
| Rings.TriangleParity | src/modules/map/building-resolution.routes.ts:210-317 | the answer for a triangle is the XOR of its three edge tests |
| Rings.FanDecomposition | src/modules/map/building-resolution.routes.ts:210-317 | for any ring the answer is the XOR of the answers for the triangles fanning out from its first vertex |
| RingGeometry.NotInsideWestOfRing | src/modules/map/building-resolution.routes.ts:281-313 | west of a finite ring an even number of edges is crossed |
| RingGeometry.InsideWithinBounds | src/modules/map/building-resolution.routes.ts:210-317 | a point inside lies in the bounding box, closed to the south and west, open to the north and east |
| RingGeometry.BoxBoundsInsideIff | src/modules/map/building-resolution.routes.ts:264-314 | with coordinates that are not finite, the inside stays in any box around the finite vertices if and only if every latitude is straddled by an even number of edges with finite ends |
| RingGeometry.MissingCoordinateEscapesTheBox | src/modules/map/building-resolution.routes.ts:264-279 | a ring with a missing coordinate whose inside leaves the box |
| RingGeometry.CrossingByTurn | src/modules/map/building-resolution.routes.ts:281-306 | an edge is crossed exactly when it straddles the latitude and the point is on its western side |
| RingGeometry.TriangleMeaning | src/modules/map/building-resolution.routes.ts:210-317 | for a counter-clockwise triangle, left of all sides is inside and right of some side is outside |
| Polygons.PointInPolygon | src/modules/map/building-resolution.routes.ts:325-378 | inside the exterior ring and in none of the holes; no rings contain nothing |
| Polygons.GeometryContainsPoint | src/modules/map/building-resolution.routes.ts:384-423 | polygon, some polygon of a multipolygon, or false for any other type |
| Polygons.ContainsOneRing | src/modules/map/building-resolution.routes.ts:325-352 | with one ring a polygon contains what is inside it; without rings it contains nothing |
| Polygons.ContainsWithHole | src/modules/map/building-resolution.routes.ts:354-378 | every further ring takes away exactly what is inside it |
| Polygons.ContainsOneMore | src/modules/map/building-resolution.routes.ts:384-423 | every further polygon of a multipolygon adds exactly what it contains |
| BuildingIndex.CourtyardMeaning | src/modules/map/building-resolution.routes.ts:325-378 | a rectangle with a rectangular courtyard contains the one half-open box without the other |
| Polygons.GeocodingPointInRing | src/services/geocoding.service.ts:94-103 | the second ring loop gives the same answer as the first on finite coordinates |
| BuildingIndex.RectangleOfPositions | src/services/geocoding.service.ts:97-98 | positions have the longitude first |
| Polygons.GeocodingInPolygon | src/services/geocoding.service.ts:106-106 | the same answer, and an error on a polygon without rings |
| Polygons.GeocodingPointInside | src/services/geocoding.service.ts:105-108 | the two containment tests agree; geocoding fails exactly when a polygon without rings comes before any that contains the point |
| Polygons.CollectPoints | src/modules/map/map.routes.ts:18-20 | every position of every ring in order |
| Polygons.PointsByName | src/modules/map/map.routes.ts:18-20 | each ring adds its positions, exterior rings and holes of all polygons alike |
| Polygons.Extents | src/modules/map/map.routes.ts:22-23 | the running minima and maxima are the smallest and largest coordinates, or not finite when one of them is not |
| Polygons.GeometryCenter | src/modules/map/map.routes.ts:17-25 | nothing exactly without positions, else the middle of the extents each way |
| Polygons.ContainsWithinBounds | src/modules/map/building-resolution.routes.ts:384-423 | a contained point lies in any box that bounds all positions |
| Polygons.SearchBox | src/services/geocoding.service.ts:110-119 | the extents padded on each side by a quarter of their size, or by 0.00006 if that is more; every point that the polygon contains lies strictly inside |
| BuildingIndex.HitsHaveNearCentre | src/modules/map/building-resolution.routes.ts:582-622 | a building with current centre and at most 0.006 degrees wide that contains the point has its centre in the rectangle |
| BuildingIndex.PrefilterAgreesWithScan | src/modules/map/building-resolution.routes.ts:566-645 | with such buildings, the answers of the prefiltered search are exactly those of a scan of all buildings |
| BuildingIndex.AnswerIsNearby | src/modules/map/building-resolution.routes.ts:582-622 | the prefiltered search returns an active, undeleted building of CMC_VISIGEO that contains the point, its centre at most 0.003 degrees away each way, and nothing only if there is none |
| BuildingIndex.RectangleMeaning | src/modules/map/building-resolution.routes.ts:210-317 | a rectangle contains its southern and western sides and not the others |
| BuildingIndex.RectangleFoundEverywhereIffSmall | src/modules/map/building-resolution.routes.ts:576-622 | for a rectangular building no point is lost if and only if both sides are at most 0.006 degrees |
| BuildingIndex.RectangleCentre | src/modules/map/map.routes.ts:17-25 | the stored centre of a rectangular building is the middle of its sides |
| BuildingIndex.CandidatesAnswer | src/modules/map/building-resolution.routes.ts:585-622 | the first hit among the queried rows is the first hit among all rows |
| BuildingIndex.BuildingTable.SyncFeature | src/modules/map/map.routes.ts:103-126 | skips unusable features, otherwise stores geometry and centre in the row of the feature or in a new one, and keeps ids unique and centres current |
| BuildingIndex.StoredFeature | src/modules/map/map.routes.ts:114-123 | the row of a stored feature has its id and geometry, is active, and has the middle of the extents as its centre |
| BuildingIndex.BuildingTable.Sync | src/modules/map/map.routes.ts:95-130 | the last usable feature of every id is stored, other rows stay, and the three counters add up |
| BuildingIndex.BuildingTable.FindContainingBuilding | src/modules/map/building-resolution.routes.ts:566-645 | returns the first eligible building with near centre that contains the point, or nothing when none does |
| BuildingIndex.BuildingTable.FindLikeScan | src/modules/map/building-resolution.routes.ts:566-645 | on a synced table of compact buildings the search answers like a full scan |
| RequestInterleaving.StepKeepsInv | src/modules/requests/requests.routes.ts:461-590 | every statement of every handler keeps version log, locks, assignments, approvals and truthful history rows in order |
| RequestInterleaving.NoAba | src/modules/requests/requests.routes.ts:484-575 | in every interleaving, an edit, assignment, transition or cancellation that holds the row replaces exactly the row it read; a transition follows the table from the true status and logs it |
| RequestInterleaving.HistoryOfTransitionsIsTrue | src/modules/requests/requests.routes.ts:176-191 | in every interleaving, history rows of transitions, assignments and decisions name the true statuses on both sides, and those of transitions are edges of the table |
| RequestStatuses.TableBothWays | src/modules/requests/requests.routes.ts:176-191 | the table of transitions, given by the statuses that each status is entered from |
| RequestStatuses.StatusesAreEnteredFrom | src/modules/requests/requests.routes.ts:176-191 | in every interleaving: closed only after resolved, duplicate only after under review, cancelled only after new or under review, action required only after inspecting, resolved only after an open status |
| RequestStatuses.TransitionsByName | src/modules/requests/requests.routes.ts:539-575 | in every interleaving, a transition that commits leaves one of the named statuses, and never for AWAITING_APPROVAL |
| RequestStatuses.WhoRejects | src/modules/approvals/approvals.routes.ts:410-421 | in every interleaving, a request becomes rejected by a transition from UNDER_REVIEW or AWAITING_APPROVAL, or by a rejecting decision |
| RequestStatuses.WhoNeedsApproval | src/modules/approvals/approvals.routes.ts:410-421 | the same for NEEDS_APPROVAL, from ACTION_REQUIRED or IN_PROGRESS, or by a request for information |
| RequestStatuses.FinishedWhileOpen | src/modules/requests/requests.routes.ts:895-912 | in every interleaving, field completion and resolution commit only on an undeleted request in an open status, by its assigned worker and by an administrator |
| RequestInterleaving.AssignmentsFormAChain | src/modules/requests/requests.routes.ts:508-519 | in every interleaving, at most one assignment is open, one is exactly when there is an assignee, it names the assignee, and users and departments form a chain |
| RequestInterleaving.ApprovalsFollowTheirLog | src/modules/approvals/approvals.routes.ts:433-526 | in every interleaving, an approval's log is requests for information and at most one final decision, its status is the fold of the log, and it has a decision time exactly after a final decision |
| RequestInterleaving.OneWinnerPerVersion | src/modules/requests/requests.routes.ts:486-487 | of all handlers that send the same version at most one replaces the row |
| RequestInterleaving.VersionNeverFallsInRun | src/modules/requests/requests.routes.ts:484-487 | the version never falls |
| RequestInterleaving.TerminalIsAbsorbing | src/modules/requests/requests.routes.ts:497-590 | with only transitions, assignments, edits, cancellations, field completions and resolutions, a terminal status stays in every interleaving |
| RequestRaces.CancelRaceLogsWhatDidNotHappen | src/modules/requests/requests.routes.ts:584-588 | a cancellation that loses a race with a transition leaves a false history row |
| RequestRaces.CancelTakesEffectIffCurrent | src/modules/requests/requests.routes.ts:584-588 | a committing cancellation adds a history row in any case; with its version current it cancels the row and the history row is true, else it leaves the row as it is |
| RequestRaces.LoggedRowIsTrueIff | src/modules/requests/requests.routes.ts:1037-1064 | the history row of any handler that holds the request's lock names the true statuses if and only if the status it read first is still the current one, or it is a decision |
| RequestRaces.LostCancelIsTrueIff | src/modules/requests/requests.routes.ts:584-588 | the history row of a cancellation that lost a race is true if and only if the last handler before it cancelled the request from the same status |
| RequestRaces.OtherCommitsLogNothing | src/modules/inspections/inspections.routes.ts:672-707 | no other commit adds a history row |
| RequestRaces.TerminalIsLeftIffThreatened | src/modules/approvals/approvals.routes.ts:173-292 | in every reachable state with a terminal status, some run leaves that status if and only if an approval is undecided, or a submission, scheduling or patch of an inspection that would change the status has passed its checks |
| RequestRaces.SubmissionRaceReopensCancelled | src/modules/approvals/approvals.routes.ts:173-292 | a submission that read the request before it was cancelled reopens it |
| CaseRules.AloneIsAnInterleaving | src/config/db.ts:236-257 | a handler that runs alone is a run of the interleaved statements with the same effect |
| CaseRules.RunKeepsTables | src/config/db.ts:236-257 | so the invariant of the interleaved handlers holds after every run of handlers that run alone |
| CaseRules.HistoryIsAPath | src/modules/requests/requests.routes.ts:237-253 | handlers one at a time: the history leads from the creation to the current status, and the version is its length plus edits and deletions |
| CaseRules.InspectionsAreOrdered | src/modules/inspections/inspections.routes.ts:193-224 | handlers one at a time, clock never going back: every row's times are in order, at most one inspection is active, it is the last row, a search for active rows finds it, and a lookup of the latest row is sure to return the last one if and only if the last two were not created at the same time |
| CaseRules.CheckInTimesNeverChange | src/modules/inspections/inspections.routes.ts:572-610 | inspections are never removed and the first check-in time stays in every run |
| CaseRules.SettledForever | src/modules/approvals/approvals.routes.ts:400-407 | a terminal request without undecided approval keeps its status in every run |
| CaseRules.TerminalIsLeftIff | src/modules/approvals/approvals.routes.ts:515-526 | some handler can take a terminal request out of its status if and only if it has an undecided approval |
| CaseRules.RejectedRequestReopens | src/modules/approvals/approvals.routes.ts:173-184 | a request submitted, rejected by a transition and then approved is in progress again |
| CaseAnswers.WhoSees | src/modules/requests/requests.routes.ts:123-128 | the widest read permission decides who sees a request, and nobody sees a deleted one |
| CaseAnswers.DeletedIsGone | src/modules/requests/requests.routes.ts:1427-1435 | a deletion takes effect, and of a deleted request only approvals can be decided |
| CaseAnswers.AdminTransitions | src/modules/requests/requests.routes.ts:539-546 | which transitions are accepted in which status, both ways |
| CaseAnswers.WorkerTransitions | src/modules/requests/requests.routes.ts:545-545 | a field worker moves exactly the requests assigned to them |
| CaseAnswers.EditsAndCancellations | src/modules/requests/requests.routes.ts:470-476 | a creator edits and cancels exactly while the request is new or under review, without a priority; others edit exactly with the permission, unless field workers |
| CaseAnswers.AssignmentsAndSubmissions | src/modules/requests/requests.routes.ts:497-505 | assigned exactly in the nine open statuses, to a known worker; submitted in those and when resolved, to a known approver |
| CaseAnswers.StaleVersions | src/modules/requests/requests.routes.ts:476-476 | no handler that sends a version accepts another than the current one |
| CaseAnswers.CompletionsAndResolutions | src/modules/requests/requests.routes.ts:769-872 | who completes and who resolves, in which statuses of request and inspection |
| CaseAnswers.Scheduling | src/modules/inspections/inspections.routes.ts:163-224 | who schedules, for which requests, and never beside an active inspection |
| CaseAnswers.MovingAnInspection | src/modules/inspections/inspections.routes.ts:521-561 | from which status an inspection is started, completed with a summary, or called off |
| CaseAnswers.CheckingIn | src/modules/inspections/inspections.routes.ts:489-554 | coordinates come in pairs, during the inspection, from its officer |
| CaseAnswers.EditReplacesWhatItNames | src/modules/requests/requests.routes.ts:478-484 | an edit replaces exactly the columns in its body |
| CaseAnswers.AssignmentNamesTheWorker | src/modules/requests/requests.routes.ts:506-519 | worker, department in its order of preference, and the new link of the chain |
| CaseAnswers.Decisions | src/modules/approvals/approvals.routes.ts:391-421 | who decides, while the approval is open, and the statuses of approval and request after each decision |
| CaseAnswers.StatusesGiven | src/modules/inspections/inspections.routes.ts:643-672 | the status that each other handler gives the request |
| CaseAnswers.NewRows | src/modules/approvals/approvals.routes.ts:216-254 | new approvals are pending, new inspections scheduled for the assignee |
| CaseAnswers.CompletionColumns | src/modules/requests/requests.routes.ts:924-932 | field completion writes status, summary and time of the latest inspection only |
| CaseAnswers.PatchedColumns | src/modules/inspections/inspections.routes.ts:579-640 | what a PATCH writes and what it keeps, the times of start and first check-in among it |
| CaseAnswers.PathsCanBeTaken | src/modules/requests/requests.routes.ts:176-191 | an administrator can take a request along every path of the table that avoids AWAITING_APPROVAL |
| CaseAnswers.FullLife | src/modules/requests/requests.routes.ts:176-191 | such as from its creation to CLOSED |
| Inspections.AnswerExists | src/modules/inspections/inspections.routes.ts:193-212 | the lookup always has an answer |
| Inspections.PatchKeepsWellTimed | src/modules/inspections/inspections.routes.ts:502-640 | an allowed PATCH keeps start, check-in and completion in order, coordinates set as a pair with the check-in, and never revives an inspection |
| Inspections.CompletionKeepsWellTimed | src/modules/requests/requests.routes.ts:924-932 | field completion keeps the times in order |
| Inspections.InsertKeepsRows | src/modules/inspections/inspections.routes.ts:193-263 | a new inspection, only added when no other is active, keeps the rows in order, also at the same clock reading |
| Inspections.ActiveSearchFindsLast | src/modules/inspections/inspections.routes.ts:193-224 | the search for active rows has one answer, the last row if it is active |
| Inspections.LatestIsLastIffNoTie | src/modules/requests/requests.routes.ts:844-872 | a lookup of the latest row of any status can only return the last row if and only if the last two were not created at the same time |
| Inspections.LatestDecides | src/modules/requests/requests.routes.ts:1267-1280 | an active row that the lookup returns is the only active one; without a tie the row is in progress exactly when some row is, and completed only if no row is active |
| Inspections.AtMostOneActive | src/modules/inspections/inspections.routes.ts:189-224 | two active rows are the same row, and it is the last |
| CaseFile.WritePatch | src/modules/inspections/inspections.routes.ts:562-670 | the columns written and the status asked of the request are those of the specification |
| CaseFile.CaseTables.constructor | src/modules/requests/requests.routes.ts:237-253 | a new request is created at version 1 with one history row |
| CaseFile.CaseTables.Edit | src/modules/requests/requests.routes.ts:461-490 | the handler in place: done exactly when the model's checks accept, the tables it leaves are those that the interleaved model gives it when alone, and any other answer leaves them as they were |
| CaseFile.CaseTables.Assign | src/modules/requests/requests.routes.ts:492-537 | the same, closing the open assignment and adding the next link of the chain |
| CaseFile.CaseTables.Transition | src/modules/requests/requests.routes.ts:539-575 | the same, along the transition table |
| CaseFile.CaseTables.Cancel | src/modules/requests/requests.routes.ts:577-590 | the same, for the creator of a fresh request |
| CaseFile.CaseTables.CompleteFieldWork | src/modules/requests/requests.routes.ts:769-1174 | the same, completing the latest inspection |
| CaseFile.CaseTables.Resolve | src/modules/requests/requests.routes.ts:1176-1425 | the same, when the latest inspection is completed |
| CaseFile.CaseTables.Delete | src/modules/requests/requests.routes.ts:1427-1435 | the same, marking the row deleted |
| CaseFile.CaseTables.SubmitApproval | src/modules/approvals/approvals.routes.ts:131-346 | the same, with a pending approval |
| CaseFile.CaseTables.Decide | src/modules/approvals/approvals.routes.ts:348-621 | the same, with the decision in the approval's log |
| CaseFile.CaseTables.ScheduleInspection | src/modules/inspections/inspections.routes.ts:147-340 | the same, returning an inspection that is already active |
| CaseFile.CaseTables.PatchInspection | src/modules/inspections/inspections.routes.ts:433-707 | the same, with the request moved only if its status differs |
| BookingAllocator.CollisionMeansMeeting | src/modules/bookings/bookings.routes.ts:571-585 | the query's condition on times means a shared instant, or, if one of the two is reversed, that it lies strictly inside the other; two reversed ones never collide |
| BookingAllocator.NoDoubleBookingInAnyRun | src/modules/bookings/bookings.routes.ts:551-638 | in every interleaving of bookings, cancellations and patches in which every status write is safe, no two active bookings of a facility and date overlap |
| BookingAllocator.StatusWriteKeepsTableIff | src/modules/bookings/bookings.routes.ts:718-721 | a status write keeps the table free of double bookings if and only if it leaves the row inactive or no other row clashes with it |
| BookingAllocator.StatusWriteIsHarmlessIff | src/modules/bookings/bookings.routes.ts:718-721 | with bookings under way: no double booking appears in any later run of safe writes if and only if the write clashes neither with a row nor with a transaction past its collision query |
| BookingAllocator.OnlyReactivationIsUnsafe | src/modules/bookings/bookings.routes.ts:779-782 | a write that does not bring a cancelled or rejected booking back, such as a cancellation, is safe |
| BookingAllocator.NoDoubleBookingWithoutReactivation | src/modules/bookings/bookings.routes.ts:551-638 | in particular, without reactivation no interleaving double-books |
| BookingAllocator.ReactivationDoubleBooks | src/modules/bookings/bookings.routes.ts:718-721 | patching a cancelled booking back double-books its slot |
| BookingAllocator.RefusalIsJustified | src/modules/bookings/bookings.routes.ts:570-595 | a transaction is refused if and only if an active booking of the facility and day has no times or meets the slot, reversed times included; otherwise none is double-booked with it |
| BookingAllocator.OneOfTwoIsCancelled | src/modules/bookings/bookings.routes.ts:579-582 | in every run of safe status writes, of two bookings with an instant in common one is cancelled or rejected |
| BookingAllocator.LiveBookingRefuses | src/modules/bookings/bookings.routes.ts:579-595 | a pending, confirmed or completed booking with an instant in common, or without times, refuses the slot |
| BookingAllocator.DeadBookingsNeverRefuse | src/modules/bookings/bookings.routes.ts:581-581 | cancelled and rejected bookings refuse nothing |
| BookingAllocator.SafeWritesByName | src/modules/bookings/bookings.routes.ts:697-721 | cancelling, rejecting and moving between the other statuses are safe |
| BookingAllocator.OnlyAvailableFacilities | src/modules/bookings/bookings.routes.ts:553-568 | the transaction goes on exactly if the facility is there, bookable and active |
| BookingAllocator.WinnerIsConfirmed | src/modules/bookings/bookings.routes.ts:597-612 | the inserted row is confirmed and has the requested facility, date and times |
| BookingAllocator.ExactlyOneWinner | scripts/test-audit-concurrency.ts:187-268 | of any number of identical requests for a free slot that do not abort, exactly one wins in every interleaving, all others are refused, and its row is the only one added |
| BookingTimes.RightUnlessMisread | src/modules/bookings/bookings.routes.ts:527-533 | for times with one or two digits for the hour and with or without seconds, a booking is accepted exactly when it starts before it ends, if and only if the times are not one of three listed misreadings |
| BookingTimes.AlwaysRightIff | src/modules/bookings/bookings.routes.ts:493-494 | the check is right on all times of two formats if and only if both have two digits for the hour, or both have one and not only the end has seconds |
| BookingTimes.UnpaddedHourSlipsThrough | src/modules/bookings/bookings.routes.ts:528-533 | a booking from 10:00 to 9:00 is accepted although it ends an hour before it starts |
| GisCache.EvictionOrderSorted | src/modules/map/cmc-gis.routes.ts:57-64 | entries are evicted by last access, and by insertion among equals |
| GisCache.OldestByName | src/modules/map/cmc-gis.routes.ts:57-64 | the next entry to go is the first of the least recently accessed ones |
| GisCache.RemainingBytes | src/modules/map/cmc-gis.routes.ts:65-68 | n evictions take away exactly the bytes of the first n entries of that order |
| GisCache.RemainingEntries | src/modules/map/cmc-gis.routes.ts:65-68 | what is evicted and what stays make up what was there |
| GisCache.ShortestPrefix | src/modules/map/cmc-gis.routes.ts:51-73 | eviction takes the shortest prefix after which bytes and entries fit, or everything |
| GisCache.Cache.Clear | src/modules/map/cmc-gis.routes.ts:46-49 | empties cache and counter and leaves the reads in flight with their stale entries |
| GisCache.Cache.FindOldest | src/modules/map/cmc-gis.routes.ts:57-64 | the scan finds the first of the least recently accessed entries |
| GisCache.Cache.EvictIfNecessary | src/modules/map/cmc-gis.routes.ts:51-73 | terminates with exactly the specified number of evictions, and the incoming bytes fit or the cache is empty |
| GisCache.Cache.Lookup | src/modules/map/cmc-gis.routes.ts:81-120 | a hit exactly on the same modification time, else the read in flight, else one new read per path |
| GisCache.Cache.FinishRead | src/modules/map/cmc-gis.routes.ts:94-115 | after each insert the counter is within 50 MB or one entry remains, and the sum of bytes minus the counter is the ledger of entries subtracted twice |
| GisCache.StoredByName | src/modules/map/cmc-gis.routes.ts:113-113 | a new path goes to the end, a known one keeps its place |
| GisCache.Cache.FailRead | src/modules/map/cmc-gis.routes.ts:94-118 | a failed read changes neither entries nor counter |
| GisCache.Cache.Settle | src/modules/map/cmc-gis.routes.ts:116-118 | a settled read is no longer shared |
| GisCache.ClearDuringReload | src/modules/map/cmc-gis.routes.ts:46-122 | a clear during a reload leaves the counter 30 MB short |
| SessionCache.FastPathCache.InvalidateUser | src/middleware/authenticate.ts:50-56 | the loop removes exactly the user's entries |
| SessionCache.FastPathCache.Store | src/middleware/authenticate.ts:189-203 | the two passes remove what has expired and at least a batch of the oldest, then store the entry |
| SessionCache.Pruned | src/middleware/authenticate.ts:190-198 | pruning a full cache makes room and keeps only entries that were there |
| SessionCache.HitIsRecent | src/middleware/authenticate.ts:127-207 | in every interleaving, a hit serves a session that the query would have returned less than 3000 ms ago, that the database has not let expire, with permissions the role had less than 303 s ago |
| SessionEnd.HitUserWasActive | src/middleware/authenticate.ts:145-158 | in every run, the user a hit serves was, less than 3000 ms ago, active and not deleted, with that role and an unrevoked session that was not over |
| SessionEnd.LogoutIsFinalIff | src/modules/auth/auth.routes.ts:229-233 | after a logout the token is ever served again if and only if an authentication that found the session earlier is on its way; never if none is |
| SessionEnd.RevocationIsFinalIff | src/modules/users/users.routes.ts:1063-1137 | the same for every session of a user whose sessions are revoked and whose entries are deleted |
| SessionEnd.OtherHitsStay | src/middleware/authenticate.ts:37-43 | deleting one entry leaves all other hits as they are, clearing leaves none |
| SessionEnd.OtherUsersHitsStay | src/middleware/authenticate.ts:50-56 | deleting a user's entries leaves the hits of other users as they are |
| SessionEnd.QueryFinds | src/middleware/authenticate.ts:145-158 | what the session query finds, by name |
| SessionEnd.UselessEntriesGo | src/middleware/authenticate.ts:136-170 | expired and rejected entries are deleted |
| SessionEnd.EntryCached | src/middleware/authenticate.ts:172-203 | the entry that is stored, and when it ends |
| SessionEnd.SessionsLiveForTheirLifetime | src/modules/auth/auth.routes.ts:205-210 | a login and a refresh give a session its whole lifetime |
| SessionEnd.AccountsAndGrants | src/middleware/authenticate.ts:58-80 | suspensions and deletions take effect on the next query, grants too; role entries are deleted one by one or all |
| SessionEnd.PruningTakesTheOldest | src/middleware/authenticate.ts:190-198 | a full cache of entries that are not over loses its 200 oldest |
| SessionCache.CachesStayBounded | src/middleware/authenticate.ts:30-94 | the caches stay within 2000 and 50 entries |
| RoleAdministration.ADirectorAlwaysRemains | src/modules/users/users.routes.ts:814-924 | once there is an active director, one remains after every commit in every interleaving |
| RoleAdministration.CommitsRespectTheHierarchy | src/modules/users/users.routes.ts:857-870 | a commit changes one user only, within the actor's level before and after, from any table of users and whatever the lock covers |
| RoleAdministration.OnlyDirectorsTouchDirectors | src/modules/users/users.routes.ts:63-87 | in every run, only approvers and directors change accounts, and who is a director before or after was changed by a director |
| RoleAdministration.WhoMayBegin | src/modules/users/users.routes.ts:83-87 | approvers and directors, and not on their own account |
| RoleAdministration.TargetIsLocked | src/modules/users/users.routes.ts:814-850 | the change goes on with a target that is there and not deleted |
| RoleAdministration.HierarchyPassedIff | src/modules/users/users.routes.ts:852-870 | it passes the checks exactly if the actor is a director, or neither the target is one nor shall be |
| RoleAdministration.GuardStopsIff | src/modules/users/users.routes.ts:876-924 | the guard stops exactly the change that takes the role or activity of the last active director |
| RoleAdministration.CommitSetsOneColumn | src/modules/users/users.routes.ts:1044-1061 | a commit sets role or status and nothing else |
| RoleAdministration.UserLocksAloneLoseTheLastDirector | src/modules/users/users.routes.ts:1226-1355 | without the shared lock two directors can remove each other |
| Decimal.PaddedInjective | src/modules/requests/requests.routes.ts:166-166 | padded numbers are equal only if the numbers are, beyond the padding too |
| RequestNumbers.NumbersAreConsecutive | src/modules/requests/requests.routes.ts:160-167 | with arbitrary rollbacks in every interleaving, a year's committed numbers are 1, 2, 3, ... up to its counter |
| RequestNumbers.NextNumberIsIssued | src/modules/requests/requests.routes.ts:160-167 | a transaction that finds the row unlocked gets the next number; a rollback leaves no trace |
| RequestNumbers.CodeLooksLike | src/modules/requests/requests.routes.ts:166-166 | LGS, the year, and the number with at least six digits |
| RequestNumbers.CodeInjective | src/modules/requests/requests.routes.ts:166-166 | a code determines its year and number |
| RequestNumbers.CodesAreUnique | src/modules/requests/requests.routes.ts:160-167 | no two committed requests have the same code |
| Placeholders.ConvertPlaceholders | src/config/db.ts:120-144 | the loop computes the conversion, and returns a statement without question marks as it is |
| Placeholders.NumberedInOrder | src/config/db.ts:123-140 | the statement is its pieces joined by the live question marks, and the conversion the same pieces joined by $1, $2, ... in order |
| Placeholders.ReadAsMeantIff | src/config/db.ts:120-144 | without dollar signs, the database gives every marker its own value if and only if no digit follows a live marker |
| Placeholders.RestoreConvert | src/config/db.ts:120-144 | without dollar signs, counting along restores the statement from its conversion |
| Placeholders.ScanConcat | src/config/db.ts:128-141 | the conversion of two texts is that of the first and then of the second, numbered on |
| Placeholders.JoinIsMatched | src/modules/bookings/bookings.routes.ts:77-77 | clauses with closed quotes and a value for every marker stay so when joined by AND, mean what they mean one by one, and can be read exactly when each of them can |
| Placeholders.ClausesAreNumberedOn | src/modules/bookings/bookings.routes.ts:37-77 | in the conversion of any list of such clauses, the markers of a clause are numbered on from the values of the clauses before it |
| Placeholders.ClausesKeepTheirValuesIff | src/modules/bookings/bookings.routes.ts:37-77 | for such clauses without dollar signs, the database gives every marker the value of its own clause if and only if no clause has a digit behind a marker |
| SqlLexer.ConvertPlaceholdersByLexer | scripts/test-sql-compatibility.ts:6-118 | the loop with its modes and lookahead computes the lexer's conversion |
| SqlLexer.InsideUntilEnd | scripts/test-sql-compatibility.ts:20-44 | comments and dollar quotes are left where they close and nowhere else |
| SqlLexer.InsideQuotes | scripts/test-sql-compatibility.ts:46-70 | a doubled quote is taken at once and does not close the literal |
| SqlLexer.InsideCode | scripts/test-sql-compatibility.ts:72-107 | which openings are recognised, in their order |
| SqlLexer.LiteralIsCopied | scripts/test-sql-compatibility.ts:46-70 | a literal with single or double quotes, its quotes doubled, passes through whatever it holds, and code goes on behind it |
| SqlLexer.LineCommentIsCopied | scripts/test-sql-compatibility.ts:20-24 | a comment passes through to the end of its line |
| SqlLexer.BlockCommentIsCopied | scripts/test-sql-compatibility.ts:26-34 | a block comment passes through to the first place where it closes |
| SqlLexer.DollarQuoteIsCopied | scripts/test-sql-compatibility.ts:36-44 | a dollar quote passes through to the first place where its tag comes again |
| SqlLexer.TagsByName | scripts/test-sql-compatibility.ts:86-95 | letters, digits and underscores between two dollar signs open one, and nothing else |
| SqlLexer.CodeIsScanned | scripts/test-sql-compatibility.ts:109-115 | in code a question mark is numbered and what opens nothing is copied |
| SqlLexer.InsideIsCopied | scripts/test-sql-compatibility.ts:20-44 | a comment or dollar quote passes through up to the first place where it closes |
| SqlLexer.ScannersAgreeIff | src/config/db.ts:120-144 | scanner and lexer give the same text if and only if every question mark on the lexer's way is a marker for both or for neither |
| SqlLexer.ScannersAgree | src/config/db.ts:120-144 | so they do on every statement without comments, dollar quotes, quotes behind backslashes and mixed quotes |
| SqlLexer.PlainIsTame | scripts/test-sql-compatibility.ts:6-118 | a statement with quotes of one kind and no comment, dollar sign or backslash is such a statement |
| SqlLexer.CommentDiffers | scripts/test-sql-compatibility.ts:143-149 | the scanner converts a question mark in a comment |
| SqlLexer.DollarQuoteDiffers | scripts/test-sql-compatibility.ts:151-157 | the scanner converts a question mark in a dollar quote |
| SqlLexer.BackslashDiffers | src/config/db.ts:130-130 | the scanner keeps a literal open at a quote behind a backslash |
| SqlLexer.MixedQuotesDiffer | src/config/db.ts:130-136 | a quote of the other kind inside a literal leaves the scanner inside quotes |
| BookingFilter.BuildFilter | src/modules/bookings/bookings.routes.ts:37-75 | the two lists hold exactly the texts and values of the wanted conditions |
| BookingFilter.FiltersByName | src/modules/bookings/bookings.routes.ts:56-75 | every given filter adds its condition with its value, and nothing else is there |
| BookingFilter.RolesByName | src/modules/bookings/bookings.routes.ts:41-48 | the condition of each role |
| BookingFilter.FilterBindsItsValues | src/modules/bookings/bookings.routes.ts:37-77 | whichever filters are given, every column is compared with the value meant for it |
| LoginLockout.LoginAccount.Login | src/modules/auth/auth.routes.ts:142-163 | the answer and the counter and lock that an attempt leaves |
| LoginLockout.CounterStaysBelowMax | src/modules/auth/auth.routes.ts:149-159 | the stored counter stays below the maximum |
| LoginLockout.WrongPasswordCounts | src/modules/auth/auth.routes.ts:147-158 | the last of max wrong passwords locks from the moment it is written, earlier ones are counted |
| LoginLockout.SuccessStartsAfresh | src/modules/auth/auth.routes.ts:162-164 | a success clears counter and lock, whatever came before |
| LoginLockout.LockHoldsAndEnds | src/modules/auth/auth.routes.ts:143-145 | during the lock even the right password is refused, afterwards it succeeds; one wrong password less does not lock |
| LoginLockout.InactiveCountsNothing | src/modules/auth/auth.routes.ts:142-142 | a user who is not active is refused and nothing is counted |
| LoginLockout.FailureRateIsBounded | src/modules/auth/auth.routes.ts:143-159 | in any window without success at most max * (length / lock + 1) wrong passwords are checked, from any counter below the maximum and any lock |
| LoginLockout.BoundIsReached | src/modules/auth/auth.routes.ts:143-159 | for every length some run of wrong passwords reaches the bound |

## Left out

Simplifications of what is modelled:

- Floating point: coordinates are exact reals, or missing when not finite; rounding in the ray test, in centres and in the database's decimal columns is not modelled, and neither is an infinite coordinate in geocoding.
- Locks in the state machines let more interleavings happen than the database does: key-share locks of foreign keys and re-evaluation after a wait are not modelled. Every theorem holds for the larger set of runs.
- RequestInterleaving is about one request; rows of different requests do not interact. Timestamp and location columns are left out there, and checks on workers, approvers and inspections are arbitrary answers, so a run may take any of them.
- CaseRules reads the clock once in a handler, and the checks repeated under locks are left out there because nothing can come between them; they are in RequestInterleaving.
- CaseFile.CaseTables.Edit and the other handlers there: which of several refusals an unaccepted command is answered with is not part of the contract, only that it is refused and changes nothing.
- BookingTimes covers times with one or two digits for the hour, two for the minute and two for the second or none; other strings of 4 to 10 characters, which the database mostly refuses, are left out.
- BookingAllocator leaves out past-date checks and the default facility, and the booking code with its retry loop, whose failed UPDATE aborts the transaction.
- BookingAllocator.NoDoubleBookingInAnyRun: excludes status writes that are not safe, because with one it is false (StatusWriteIsHarmlessIff), and the legacy insert in src/modules/requests/requests.routes.ts:278-305, which takes no facility lock and writes no times.
- BuildingIndex.BuildingTable.Sync: building codes, names and addresses are left out, and so is a clash of building codes, which would abort the transaction.
- BuildingIndex.RectangleFoundEverywhereIffSmall: the exact condition is stated for rectangles only; for other shapes the size is sufficient, since a shape need not reach the corners of its box.
- GisCache works on resolved paths; the check against path traversal, the content and the etag are left out.
- SessionCache has one clock for the process and the database, and one process.
- RoleAdministration.ADirectorAlwaysRemains: department rules, session revocation and the check on the actor's own role in the database are left out; the actor's role is the one of the request.
- LoginLockout.FailureRateIsBounded: attempts on an account come one after the other; two attempts that read the counter at the same time are not modelled.
- Placeholders works on characters of the statement; reading a converted statement takes every dollar sign with digits as a parameter, which is right because the statements considered hold no other dollar sign.
- BookingFilter covers the WHERE conditions; the SELECT text around them, which has no markers, is left out.

Not modelled at all:

- Routing, request validation beyond what the handlers check themselves, cookies, rate limits, mail, notifications and audit rows.
- withTransaction's connection handling: it appears as the commits and rollbacks of the state machines.
- Password hashes, tokens and UUIDs, which are opaque, and calls to map and geocoding services.
- Distance and scoring in place search, taxes, analytics, dashboards, content and migrations.
- Freedom from deadlocks: inspection patches and field completion take their locks in opposite orders.
