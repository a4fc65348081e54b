# LMS-Softtec scooter simulation: a Dafny model

LMS-Softtec is a browser simulation of an e-scooter rental fleet in Hamburg.
This project models the simulation engine and proves properties of the model.
It is made of seven modules, one per file.

- `Basics` (`basics.dfy`): `Option`, `Point`, and JavaScript's numeric helpers.
  These are `Math.floor`, `Math.round`, the truncation done by `new Date(ms)`,
  and number-to-string conversion in template literals.
- `ScooterTypes` (`types.dfy`): the records of `src/types/scooter.ts`.
  A scooter is a value. A ride is an object (`class Ride`): a simulation
  timer keeps a reference to the ride it was started with, and `endRide`
  writes `isActive` in place on whatever object the ride list holds.
- `Polyline` (`polyline.dfy`): the decoder of Google's encoded polyline
  format, in the precision-6 variant Valhalla uses. The model also has an
  encoder, so decoding can be proved to invert it.
- `Routing` (`routing.dfy`): turning a parsed routing answer into a route,
  the straight-line fallback, walking a route to a given progress, and the
  retry loop that looks for an accessible random position.
- `MockData` (`mock_data.dfy`): random positions in the five safe zones,
  the generated fleet, the cost of a trip, and the active rides seeded for
  in-use scooters, on both the routed and the fallback path.
- `ScooterStore` (`store.dfy`): the Pinia fleet store, as `class FleetStore`,
  and one timer of `simulateRide`, as `class RideSimulation`.
  - Each store operation is a method on the store's fields.
  - One call of `RideSimulation.Tick` is one firing of the ride's 1 s
    (1000 ms) interval.
  - A ride's first tick replaces the ride-list entry with a copy. After that,
    `endRide` marks the copy inactive, not the object the timer captured.
    The model keeps the two objects distinct, as the source does.
    `EndedAfterFirstTickKeepsMoving` proves the consequence: a ride ended
    from outside after its first tick goes on moving its scooter, which is
    left available at the last interpolated position.
    `EndedBeforeFirstTickStops` proves the other case: a ride ended before
    its first tick stops the timer, and its scooter stays at the target.
- `LoadingProgress` (`loading.dfy`): the loading-panel store, as
  `class LoadingStore`. It holds a list of named steps with a status each,
  a derived percentage, and a progress text.

Everything that is not deterministic is a parameter:
- `Math.random()` draws are reals in [0, 1).
- `Date.now()` is an integer number of milliseconds.
- A routing-engine answer is the `RouteResponse` datatype, and an
  accessibility check is that datatype's answer per attempt.
- The Haversine distance is a function `dist` that is assumed only to be
  non-negative where that matters.

JavaScript numbers are modelled as exact reals where the source computes
with fractions, and as integers where it only counts or uses milliseconds.

Where the documentation and the code differ, the model follows the code.
- A generated scooter's battery is `floor(r * 80) + 20`. That lies in
  [20, 99], although the comment beside it says 100.
- A seeded ride's `initialBatteryLevel` is not clamped to 100.
- After `updateLoadingStep(id, "completed")`, the text reads
  "k+1 von n abgeschlossen", where k already counts the step just
  completed. It therefore names one more step than are done.
  `UpdateLoadingStep` models this text as written.

## Model

| member | source | states |
|---|---|---|
| Basics.Round | LMS-Softtec/src/utils/mockData.ts:100-101 | `Math.round` is within one half of its argument, rounding halves up |
| Basics.Trunc | LMS-Softtec/src/utils/mockData.ts:133-136 | truncation toward zero of a millisecond count, for both signs |
| Basics.NatToStringRoundTrip | LMS-Softtec/src/utils/mockData.ts:52 | the decimal text of a number reads back as that number |
| Basics.NatToStringInjective | LMS-Softtec/src/utils/mockData.ts:52 | different numbers have different decimal texts, so generated ids differ |
| ScooterTypes.Ride.constructor | LMS-Softtec/src/types/scooter.ts:12-24 | a new ride holds exactly the given field values |
| ScooterTypes.Ride.CopyWith | LMS-Softtec/src/stores/scooters.ts:614-623 | the spread copy is a new object that agrees with the ride on every field except progress and currentPosition, which take the given values |
| ScooterTypes.IndicesWhere | LMS-Softtec/src/utils/mockData.ts:108 | the positions of selected scooters, strictly increasing, at most one per scooter |
| ScooterTypes.IndicesWhereComplete | LMS-Softtec/src/utils/mockData.ts:108 | every position whose scooter passes the test is among them |
| ScooterTypes.Select | LMS-Softtec/src/stores/scooters.ts:43-48 | the filter keeps exactly the scooters that pass the test, one per selected position, in fleet order |
| Polyline.Factor | LMS-Softtec/src/utils/routing.ts:16 | the scale is at least 1, and a precision of 0 means 10^6 |
| Polyline.ReadGroup | LMS-Softtec/src/utils/routing.ts:27-31 | the do-while group loop returns the value and next index of the recursive varint reading |
| Polyline.Decode | LMS-Softtec/src/utils/routing.ts:6-52 | one point per decoded delta pair, at most one per character; point k is the running sum of the first k+1 deltas divided by the factor |
| Polyline.DeltasFrom | LMS-Softtec/src/utils/routing.ts:21-49 | a non-empty suffix yields at least one point and never more points than characters |
| Polyline.ZigZagRoundTrip | LMS-Softtec/src/utils/routing.ts:33 | zig-zag decoding inverts zig-zag encoding for every integer |
| Polyline.ReadEncodedVarint | LMS-Softtec/src/utils/routing.ts:27-31 | reading the 5-bit groups of an encoded value gives back the value and stops right after its last group |
| Polyline.DecodeEncodeDeltas | LMS-Softtec/src/utils/routing.ts:21-49 | decoding an encoded sequence of delta pairs gives back the deltas |
| Polyline.PolylineRoundTrip | LMS-Softtec/src/utils/routing.ts:6-52 | decoding the encoding of integer points gives back every point divided by the factor |
| Polyline.LoneLatitude | LMS-Softtec/src/utils/routing.ts:37-43 | a latitude group at the end of the text decodes to a point with longitude delta 0 |
| Polyline.TruncatedLongitude | LMS-Softtec/src/utils/routing.ts:21-49 | a text cut after a latitude still decodes every earlier point, and then one more with longitude delta 0 |
| Routing.ManeuverPoints | LMS-Softtec/src/utils/routing.ts:139-148 | every maneuver with a shape index contributes its point, and every point comes from such a maneuver; none at all gives no points |
| Routing.ManeuverPointsAppend | LMS-Softtec/src/utils/routing.ts:139-148 | the points of a concatenation are the points of the first part followed by those of the second, so they keep the maneuvers' order |
| Routing.CandidateWaypoints | LMS-Softtec/src/utils/routing.ts:127-154 | the candidates are never empty: a present shape decoded at precision 6; otherwise the maneuver points when there are any; otherwise `[start, end]` |
| Routing.ShapeNeverFallsBack | LMS-Softtec/src/utils/routing.ts:127-138 | a non-empty shape always decodes to at least one point, so the maneuver fallback is never taken |
| Routing.KeepInServiceArea | LMS-Softtec/src/utils/routing.ts:157-165 | a point is kept if and only if it was a candidate inside the service box |
| Routing.KeepAppend | LMS-Softtec/src/utils/routing.ts:157-165 | filtering a concatenation is the concatenation of the filtered parts |
| Routing.KeepIdempotent | LMS-Softtec/src/utils/routing.ts:157-165 | filtering twice is filtering once |
| Routing.RouteFromResponse | LMS-Softtec/src/utils/routing.ts:113-180 | a route is read only from an answer with at least one leg and a summary; its waypoints are the first leg's candidates kept inside the service box, its distance the summary length in metres and its duration the summary time; conversely such an answer whose kept candidates are not empty always gives a route |
| Routing.CreateDirectRoute | LMS-Softtec/src/utils/routing.ts:190-200 | the direct route is `[start, end]`, its distance the given distance, its duration that distance at 15 km/h |
| Routing.CalculateRoute | LMS-Softtec/src/utils/routing.ts:83-185 | the answer's route when one can be read from it, and the direct route otherwise |
| Routing.CalculatedRouteShape | LMS-Softtec/src/utils/routing.ts:150-184 | every result has at least one waypoint, and either all its waypoints lie in the service box or it is the direct route |
| Routing.PathLengthMonotone | LMS-Softtec/src/utils/routing.ts:254-273 | the running length along a route is non-negative and never decreases |
| Routing.InterpolationUnique | LMS-Softtec/src/utils/routing.ts:221-278 | the interpolation relation determines at most one position for a route and a progress |
| Routing.InterpolationOnRoute | LMS-Softtec/src/utils/routing.ts:250-271 | for progress strictly between 0 and 1 on a route of positive length, the position lies on one of its segments |
| Routing.MeasureSegments | LMS-Softtec/src/utils/routing.ts:231-242 | one segment per consecutive pair of waypoints, and the total equals the path length |
| Routing.LocateOnRoute | LMS-Softtec/src/utils/routing.ts:250-277 | the walk stops in the first segment whose cumulative length reaches the target, at the in-segment fraction |
| Routing.InterpolatePosition | LMS-Softtec/src/utils/routing.ts:221-278 | the result is the interpolation of the route at that progress, boundary cases included |
| Routing.DrawBetween | LMS-Softtec/src/utils/routing.ts:344-346 | a draw in [0, 1) maps between the two bounds |
| Routing.SampleInBounds | LMS-Softtec/src/utils/routing.ts:344-346 | a sampled position lies inside the box |
| Routing.GenerateValidPosition | LMS-Softtec/src/utils/routing.ts:339-364 | at most the allowed number of checks; the first accessible sample is returned, and none when every check fails |
| MockData.SafeZonesInArea | LMS-Softtec/src/utils/mockData.ts:12-23 | each of the five safe zones is a proper box inside the generation area |
| MockData.GenerateRandomPosition | LMS-Softtec/src/utils/mockData.ts:10-32 | the position lies in one of the safe zones, and so in the routing service box |
| MockData.MockScooter | LMS-Softtec/src/utils/mockData.ts:42-66 | scooter i is `scooter-(i+1)`, with battery in [20, 99], price in [0.15, 0.25), a catalogue model, in use exactly when its draw is below 0.15, and available only when not in use |
| MockData.MockScooterIdsDistinct | LMS-Softtec/src/utils/mockData.ts:52 | scooters at different positions get different ids |
| MockData.GenerateMockScooters | LMS-Softtec/src/utils/mockData.ts:35-73 | exactly `count` scooters (none for a negative count), scooter i built from draw i, in order |
| MockData.CalculateCost | LMS-Softtec/src/utils/mockData.ts:90-103 | the duration is the travel time rounded to whole minutes, and the cost is the unrounded price rounded to whole cents |
| MockData.ScheduleRide | LMS-Softtec/src/utils/mockData.ts:129-136 | progress in [0.1, 0.8), end minus start is the duration in milliseconds, and the start lies that share of the trip before now |
| MockData.InitialBattery | LMS-Softtec/src/utils/mockData.ts:161 | the claimed starting battery lies in [battery, battery + 19], without a cap at 100 |
| MockData.RoutedPlan | LMS-Softtec/src/utils/mockData.ts:118-139 | a target in the service box, and the route and duration of the calculated route to it |
| MockData.DirectPlan | LMS-Softtec/src/utils/mockData.ts:171-190 | a fresh target in the service box, the route `[start, target]`, and the duration of the straight distance |
| MockData.PlanRide | LMS-Softtec/src/utils/mockData.ts:114-208 | on both paths: progress in [0.1, 0.8), end minus start equals the duration, starting battery in [battery, battery + 19], and the straight route after a failure |
| MockData.SeedRide | LMS-Softtec/src/utils/mockData.ts:114-207 | a new active ride with the planned fields, at the interpolated position on the routed path and on the straight line on the fallback path |
| MockData.RidesSeededSnoc | LMS-Softtec/src/utils/mockData.ts:164 | appending the ride of the next in-use scooter keeps every earlier ride seeded |
| MockData.MovedAt | LMS-Softtec/src/utils/mockData.ts:147-148 | a scooter that has a seeded ride stands at that ride's position; any other scooter is unchanged |
| MockData.MovedKeepsIdle | LMS-Softtec/src/utils/mockData.ts:108-148 | a scooter that is not in use keeps its record |
| MockData.SeedInPlace | LMS-Softtec/src/utils/mockData.ts:147-164 | one loop step seeds the next ride and writes its position into the fleet array |
| MockData.GenerateMockActiveRides | LMS-Softtec/src/utils/mockData.ts:106-215 | exactly one new active ride per in-use scooter, in fleet order, each seeded from its draws, with each such scooter moved to its ride's position |
| ScooterStore.FindScooter | LMS-Softtec/src/stores/scooters.ts:464 | the first scooter with the id, or none exactly when no scooter has it |
| ScooterStore.FindRide | LMS-Softtec/src/stores/scooters.ts:613 | the first ride with the id, or none exactly when no ride has it |
| ScooterStore.FindScooterByIds | LMS-Softtec/src/stores/scooters.ts:636-637 | the lookup depends only on the ids in the fleet |
| ScooterStore.FindRideByIds | LMS-Softtec/src/stores/scooters.ts:613 | the lookup depends only on the ids in the ride list |
| ScooterStore.FirstActiveRide | LMS-Softtec/src/stores/scooters.ts:34-40 | the first active ride of the scooter, or none exactly when it has no active ride |
| ScooterStore.Apply | LMS-Softtec/src/stores/scooters.ts:567-569 | a move writes only the position; taking into use sets in use and not available and keeps position and last use; a release sets available and not in use, the target position and the time of last use; none changes the id, battery, price or model |
| ScooterStore.UpdateFirst | LMS-Softtec/src/stores/scooters.ts:636-645 | only the first scooter with the id is updated, every other entry stays, and an unknown id changes nothing |
| ScooterStore.UpdateKeepsLookup | LMS-Softtec/src/stores/scooters.ts:636-645 | updating a scooter does not change where any id is found |
| ScooterStore.AutoRideCandidates | LMS-Softtec/src/stores/scooters.ts:43-48 | exactly the available, idle scooters with battery above 30, one per such position, in fleet order |
| ScooterStore.AutomaticCount | LMS-Softtec/src/stores/scooters.ts:52-54 | the number of automatic rides is at most the number of rides |
| ScooterStore.AutomaticCountConcat | LMS-Softtec/src/stores/scooters.ts:52-54 | the count of automatic rides adds over concatenation |
| ScooterStore.AutomaticCountRemove | LMS-Softtec/src/stores/scooters.ts:702 | removing one ride lowers the count by one exactly when that ride was automatic |
| ScooterStore.AutomaticCountReplace | LMS-Softtec/src/stores/scooters.ts:619 | replacing a ride by one with the same flag keeps the count |
| ScooterStore.AutomaticCountAppend | LMS-Softtec/src/stores/scooters.ts:579 | appending a ride raises the count by one exactly when it is automatic |
| ScooterStore.MaxAutoRides | LMS-Softtec/src/stores/scooters.ts:55-57 | the cap is the floor of 30 % of the fleet size |
| ScooterStore.CanStartAutomaticRide | LMS-Softtec/src/stores/scooters.ts:50-64 | a ride may start only when more than 8 candidates exist and the automatic rides are below the cap, so never when the cap is 0 |
| ScooterStore.CandidatesAfterTaking | LMS-Softtec/src/stores/scooters.ts:108-109 | taking one candidate into use leaves exactly one candidate fewer |
| ScooterStore.PickCandidate | LMS-Softtec/src/stores/scooters.ts:73-74 | the drawn index points at an auto-ride candidate of the fleet |
| ScooterStore.RestorableRides | LMS-Softtec/src/stores/scooters.ts:345-356 | exactly the stored rides that are active and whose scooter exists, each at most as often as stored |
| ScooterStore.RestorableRidesConcat | LMS-Softtec/src/stores/scooters.ts:345-356 | filtering a concatenation is the concatenation of the filtered parts, so the stored order is kept |
| ScooterStore.RestorableRide | LMS-Softtec/src/stores/scooters.ts:345-356 | a single stored ride is kept exactly when it is active and its scooter exists |
| ScooterStore.StartSimulations | LMS-Softtec/src/stores/scooters.ts:372-379 | one new running timer per ride, each holding that ride |
| ScooterStore.JsRemainder | LMS-Softtec/src/stores/scooters.ts:288 | JavaScript's truncating `%`: the Euclidean remainder for a non-negative dividend; for a negative one, 0 when the divisor divides it and the Euclidean remainder minus the divisor otherwise |
| ScooterStore.ModUnique | LMS-Softtec/src/stores/scooters.ts:288 | a decomposition `a = k*b + r` with `0 <= r < b` determines the Euclidean remainder |
| ScooterStore.CalculateRideDuration | LMS-Softtec/src/stores/scooters.ts:281-291 | minutes is the floor of the seconds over 60, seconds the remainder, in [0, 60) for a non-negative elapsed time; both are non-positive before the start |
| ScooterStore.FloorIsDiv | LMS-Softtec/src/stores/scooters.ts:286-287 | `Math.floor` of an integer quotient is integer division |
| ScooterStore.CalculateBatteryUsage | LMS-Softtec/src/stores/scooters.ts:294-306 | the battery lies in [0, 100] and never rises above its starting level |
| ScooterStore.BatteryNonIncreasing | LMS-Softtec/src/stores/scooters.ts:294-306 | the battery level never rises as time goes on |
| ScooterStore.TickProgress | LMS-Softtec/src/stores/scooters.ts:606-607 | progress never exceeds 1, reaches 1 exactly when the elapsed time reaches the total, and is non-negative after the start |
| ScooterStore.GenerateFleet | LMS-Softtec/src/stores/scooters.ts:389-410 | 25 generated scooters, one new active ride per in-use scooter, and each such scooter moved to its ride's position |
| ScooterStore.FleetStore.constructor | LMS-Softtec/src/stores/scooters.ts:19-31 | an empty store, with nothing selected and no automatic system |
| ScooterStore.FleetStore.ActiveRideForScooter | LMS-Softtec/src/stores/scooters.ts:34-40 | the first active ride of the scooter in list order (no earlier ride is an active ride of it), or none exactly when it has none |
| ScooterStore.FleetStore.StartAutomaticRideSystem | LMS-Softtec/src/stores/scooters.ts:132-140 | starting when already running keeps the old handle; otherwise the new handle is stored; nothing else changes |
| ScooterStore.FleetStore.StopAutomaticRideSystem | LMS-Softtec/src/stores/scooters.ts:142-148 | afterwards no handle is held, and nothing else changes |
| ScooterStore.FleetStore.SelectScooter | LMS-Softtec/src/stores/scooters.ts:436-460 | the scooter is selected, target and route preview are cleared, and the fleet and rides are unchanged |
| ScooterStore.FleetStore.SelectScooterByRide | LMS-Softtec/src/stores/scooters.ts:463-477 | selects the ride's scooter exactly when it exists; otherwise the selection is unchanged |
| ScooterStore.FleetStore.ClearSelection | LMS-Softtec/src/stores/scooters.ts:706-710 | scooter, target and route preview are all cleared, and nothing else changes |
| ScooterStore.FleetStore.SetTargetPosition | LMS-Softtec/src/stores/scooters.ts:480-538 | without a selection nothing changes; otherwise the target is set and the preview holds the calculated route with its cost and duration |
| ScooterStore.FleetStore.StartRide | LMS-Softtec/src/stores/scooters.ts:542-590 | no ride and no change unless scooter, target and preview are all set; otherwise a new active ride at progress 0 is appended, the scooter taken into use, and the selection cleared |
| ScooterStore.FleetStore.StartAutomaticRide | LMS-Softtec/src/stores/scooters.ts:66-130 | when the draw allows it, the drawn candidate starts an automatic ride to a random target, while more than 8 candidates remain and the cap still holds; otherwise nothing changes |
| ScooterStore.FleetStore.InitializeScooters | LMS-Softtec/src/stores/scooters.ts:309-433 | a stored fleet is taken over with its restorable rides; an empty store gets a generated fleet; every listed ride gets a running timer |
| ScooterStore.FleetStore.RefreshRide | LMS-Softtec/src/stores/scooters.ts:613-624 | the first ride with the id is replaced by a new copy with the new progress and position; all other entries and every lookup stay |
| ScooterStore.FleetStore.EndRide | LMS-Softtec/src/stores/scooters.ts:674-703 | an unknown id changes nothing; otherwise exactly that ride is marked inactive and removed, the others keep their order, and its scooter is released at the ride's target |
| ScooterStore.RideSimulation.constructor | LMS-Softtec/src/stores/scooters.ts:593-598 | a running timer on the ride, with the total duration and no write yet |
| ScooterStore.RideSimulation.Tick | LMS-Softtec/src/stores/scooters.ts:600-669 | an inactive captured ride stops the timer with no change; otherwise the scooter moves to the interpolated position, a write happens only when the scooter exists and 10 s have passed since the last one, and at progress 1 the ride is ended and the timer stops |
| ScooterStore.RideSimulation.Advance | LMS-Softtec/src/stores/scooters.ts:606-657 | the position is the interpolation at the current progress, and the ride entry and the scooter are updated to it |
| ScooterStore.RideSimulation.Complete | LMS-Softtec/src/stores/scooters.ts:665-668 | a tick at progress 1 removes the ride's entry, releases its scooter at the target, stops the timer, and leaves every ride of the earlier list with its active flag |
| ScooterStore.RideSimulation.Record | LMS-Softtec/src/stores/scooters.ts:613-657 | only the ride entry with the id and the ride's scooter change, and the write counter moves exactly when the scooter exists |
| ScooterStore.EndedBeforeFirstTickStops | LMS-Softtec/src/stores/scooters.ts:600-604 | a ride ended before its first tick stops its timer, and its scooter stays available at the target |
| ScooterStore.FirstTickCopies | LMS-Softtec/src/stores/scooters.ts:613-623 | the first tick puts a new copy in the list in place of the captured ride, and the captured ride stays active |
| ScooterStore.EndReleasesScooter | LMS-Softtec/src/stores/scooters.ts:674-703 | ending a ride whose list entry is a copy releases the scooter but leaves the captured ride active |
| ScooterStore.EndedAfterFirstTickKeepsMoving | LMS-Softtec/src/stores/scooters.ts:600-645 | a ride ended after its first tick keeps its timer, and the next tick moves the released scooter to the interpolated position |
| ScooterStore.RemoveRefreshed | LMS-Softtec/src/stores/scooters.ts:702 | removing a replaced entry leaves the same list as removing the original |
| ScooterStore.RefreshKeepsLookup | LMS-Softtec/src/stores/scooters.ts:619 | replacing a ride by a copy with the same id does not change where any id is found |
| LoadingProgress.FindStep | LMS-Softtec/src/stores/loading.ts:42 | the first step with the id, or none exactly when no step has it |
| LoadingProgress.FindStepByIds | LMS-Softtec/src/stores/loading.ts:42 | the lookup depends only on the ids |
| LoadingProgress.CompletedCount | LMS-Softtec/src/stores/loading.ts:51 | at most one per step |
| LoadingProgress.CompletedCountReplace | LMS-Softtec/src/stores/loading.ts:44-51 | replacing one step changes the count only by that step's old and new status |
| LoadingProgress.OverallProgress | LMS-Softtec/src/stores/loading.ts:50-53 | not a number exactly when there are no steps; otherwise the whole number within one half of completed * 100 / total (halves rounded up), in [0, 100], 100 when all are done and 0 when none is |
| LoadingProgress.ProgressMonotone | LMS-Softtec/src/stores/loading.ts:50-53 | more completed steps never give a lower percentage |
| LoadingProgress.Clamp | LMS-Softtec/src/stores/loading.ts:69 | the result lies in [0, 100], equals the input inside it, and the nearer bound outside it |
| LoadingProgress.AsPending | LMS-Softtec/src/stores/loading.ts:34 | every step keeps its fields except its status, which becomes pending |
| LoadingProgress.AsPendingFacts | LMS-Softtec/src/stores/loading.ts:34 | the ids stay in order and no step counts as completed |
| LoadingProgress.Updated | LMS-Softtec/src/stores/loading.ts:41-48 | only the first step with the id changes, to the new status, and its detail only when one is given; an unknown id changes nothing |
| LoadingProgress.CompletedAfterUpdate | LMS-Softtec/src/stores/loading.ts:41-53 | the completed count changes only by the old and new status of the updated step |
| LoadingProgress.Finished | LMS-Softtec/src/stores/loading.ts:79-85 | error steps stay error, every other step is completed, and ids, captions and details stay |
| LoadingProgress.FinishedCount | LMS-Softtec/src/stores/loading.ts:79-88 | after finishing, completed and error steps together are all of the steps |
| LoadingProgress.ScooterLoadingSteps | LMS-Softtec/src/stores/loading.ts:102-110 | the six steps init, scooters, validation, rides, routes and finalize, all pending, with no detail |
| LoadingProgress.RouteCalculationSteps | LMS-Softtec/src/stores/loading.ts:115-121 | the four steps request, calculate, optimize and complete, all pending, with no detail |
| LoadingProgress.LoadingStore.constructor | LMS-Softtec/src/stores/loading.ts:20-27 | the idle panel: not loading, progress 0, no steps, no error |
| LoadingProgress.LoadingStore.StartLoading | LMS-Softtec/src/stores/loading.ts:30-39 | loading, progress 0, the starting text, no error, and the given steps all pending with their ids in order |
| LoadingProgress.LoadingStore.UpdateLoadingStep | LMS-Softtec/src/stores/loading.ts:41-66 | the steps are updated, the progress is recomputed from the completed count, and the text follows the new status |
| LoadingProgress.LoadingStore.SetLoadingProgress | LMS-Softtec/src/stores/loading.ts:68-73 | the progress is clamped to [0, 100], and the text is replaced only by a non-empty text |
| LoadingProgress.LoadingStore.SetLoadingError | LMS-Softtec/src/stores/loading.ts:75-77 | only the error message changes |
| LoadingProgress.LoadingStore.FinishLoading | LMS-Softtec/src/stores/loading.ts:79-90 | every non-error step is completed, error steps stay, the progress is 100, and the text is the finished text |
| LoadingProgress.LoadingStore.HidePanel | LMS-Softtec/src/stores/loading.ts:91-93 | the panel is hidden, and nothing else changes |
| LoadingProgress.LoadingStore.CancelLoading | LMS-Softtec/src/stores/loading.ts:96-99 | the panel is hidden and the error cleared, and nothing else changes |
| LoadingProgress.LoadingStore.StartScooterLoading | LMS-Softtec/src/stores/loading.ts:102-113 | loading the fleet starts with its six pending steps |
| LoadingProgress.LoadingStore.StartRouteCalculation | LMS-Softtec/src/stores/loading.ts:115-124 | route calculation starts with its four pending steps |

## Left out

- Persistence: the Dexie reads and writes and `src/db.ts` are not part of this model. A database write in a tick is the `persisted` result of `RideSimulation.Tick`. The stored fleet and rides read by `initializeScooters` are parameters.
- `initializeScooters`' catch branch only logs and marks a loading step, and is not modelled. The 5 s `setTimeout` at the end of its try branch (`src/stores/scooters.ts:424-426`) is a separate call of `StartAutomaticRideSystem`.
- `cleanupOldRides`, `clearAllData` and `calculateCurrentRideCost` are persistence or display helpers, and are not modelled.
- The `fetch` calls of `calculateRoute` and `isPositionAccessible`. The parsed answer is the `RouteResponse` parameter.
- The catch branches of `setTargetPosition` and `startAutomaticRide`. `calculateRoute` catches every error itself, so these branches are unreachable.
- The Haversine distance of `routing.ts` and `mockData.ts` is the parameter `dist`. Its trigonometry is not modelled.
- Floating point: every fraction is an exact real. Rounding of intermediate results, `NaN` inputs and infinities are not modelled. The one exception is the `NaN` that `updateLoadingStep` produces for an empty list of steps.
- ScooterStore.RideSimulation.Tick: requires the ride to have a non-zero planned duration, or the tick to fall after its start. A zero-duration ride ticking at its start gives `0/0` in the source; ticking before its start gives negative infinity.
- Polyline.Decode: uses unbounded integers. It does not model JavaScript's 32-bit wrap of `<<` for groups longer than six characters.
- Concurrency: each interval firing and each awaited call is one atomic method call. Interleavings, for example the fleet changing while `startAutomaticRide` waits for a route, are not modelled.
- Time between calls is not modelled: the 1 s interval of a ride's timer (`updateInterval`), the 15 s interval of the automatic system (`AUTO_RIDE_CHECK_INTERVAL`), the 5 s delay before that system starts, and the 50, 200 and 500 ms delays. Each firing is one method call. The 500 ms delay in `finishLoading` is the separate call `HidePanel`.
- `startTime` and `estimatedEndTime` of a new ride use one `now`. The source reads the clock twice.
- `selectedScooter` is a value snapshot of the scooter. In the source it is a reference to the fleet entry that was selected.
- ScooterStore.FleetStore.StartRide: takes into use the fleet entry that has the selected scooter's id, by `UpdateFirst`. The source instead writes `isInUse` and `isAvailable` into the selected object itself (`src/stores/scooters.ts:568-569`). The two differ once a tick has replaced that fleet entry with a copy (`src/stores/scooters.ts:645`), for example a released scooter still moved by the timer of an ended ride: the source then leaves the fleet entry available, and the model marks it in use.
- The loading-step calls made by `initializeScooters`, `generateMockScooters`, `generateMockActiveRides` and `generateValidPosition` are progress display only, and are not modelled. So is console logging.
- ScooterStore.FleetStore.StartAutomaticRideSystem: a stored handle of 0 counts as running. The source's truthiness test would treat 0 as not running, but browsers never hand out 0 as a timer handle.
- `src/stores/mapStore.ts` is Leaflet rendering, and is not part of this model.
