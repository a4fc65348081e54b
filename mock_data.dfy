/** The fleet and ride generators of `src/utils/mockData.ts`. Every
    `Math.random()` value is an input draw in [0, 1) and every `Date.now()`
    an input clock reading in milliseconds. */
module MockData {
  import opened Basics
  import opened ScooterTypes
  import Routing

  /** Hamburg city hall, the centre the map opens on. */
  const HamburgCenter: Point := Point(53.5511, 9.9937)

  /** A latitude/longitude box free of major water. */
  datatype Zone = Zone(south: real, north: real, west: real, east: real)

  /** Altona/St. Pauli, Neustadt, HafenCity, Eimsbuettel, Rotherbaum. */
  const SafeZones: seq<Zone> := [
    Zone(53.545, 53.56, 9.95, 9.975),
    Zone(53.545, 53.565, 9.975, 10.005),
    Zone(53.54, 53.555, 10.005, 10.03),
    Zone(53.56, 53.58, 9.95, 9.985),
    Zone(53.56, 53.58, 9.985, 10.02)
  ]

  const Models: seq<string> := ["Xiaomi Mi 3", "Ninebot ES4", "Bird One", "Lime Gen 4", "Tier ES200"]

  /** The speed, in km/h, `calculateCost` assumes by default. */
  const DefaultSpeed: real := 15.0

  predicate InZone(p: Point, z: Zone) {
    z.south <= p.lat < z.north && z.west <= p.lng < z.east
  }

  /** The box the five safe zones cover. */
  predicate InGenerationArea(p: Point) {
    53.54 <= p.lat < 53.58 && 9.95 <= p.lng < 10.03
  }

  /** The three draws `generateRandomPosition` makes: zone, latitude, longitude. */
  datatype PositionDraw = PositionDraw(zone: real, lat: real, lng: real)

  predicate ValidPositionDraw(d: PositionDraw) {
    IsDraw(d.zone) && IsDraw(d.lat) && IsDraw(d.lng)
  }

  /** Each safe zone is a proper box inside the generation area. */
  lemma SafeZonesInArea(z: Zone)
    requires z in SafeZones
    ensures z.south < z.north && z.west < z.east
    ensures 53.54 <= z.south && z.north <= 53.58 && 9.95 <= z.west && z.east <= 10.03
  {
  }

  /** `generateRandomPosition`: a uniform point in a uniformly chosen safe zone. */
  function GenerateRandomPosition(d: PositionDraw): (p: Point)
    requires ValidPositionDraw(d)
    ensures exists z | z in SafeZones :: InZone(p, z)
    ensures InGenerationArea(p) && Routing.InServiceArea(p)
  {
    FloorDrawIndex(d.zone, |SafeZones|);
    var i := Floor(d.zone * |SafeZones| as real);
    var zone := SafeZones[i];
    var p := Point(zone.south + d.lat * (zone.north - zone.south), zone.west + d.lng * (zone.east - zone.west));
    assert InZone(p, zone) by {
      assert i == 0 || i == 1 || i == 2 || i == 3 || i == 4;
    }
    SafeZonesInArea(zone);
    p
  }

  // ---------------------------------------------------------------------------
  // Scooters
  // ---------------------------------------------------------------------------

  /** The draws and the clock reading behind one generated scooter. The
      maintenance draw is consulted only for a scooter that is not in use. */
  datatype ScooterDraw = ScooterDraw(
    inUse: real, position: PositionDraw, battery: real, maintenance: real,
    price: real, model: real, age: real, now: int)

  predicate ValidScooterDraw(d: ScooterDraw) {
    && IsDraw(d.inUse) && ValidPositionDraw(d.position) && IsDraw(d.battery)
    && IsDraw(d.maintenance) && IsDraw(d.price) && IsDraw(d.model) && IsDraw(d.age)
    && 0 <= d.now
  }

  /** Milliseconds in a day. */
  const DayMs: int := 24 * 60 * 60 * 1000

  /** The `i`-th (0-based) scooter `generateMockScooters` builds. */
  function MockScooter(i: nat, d: ScooterDraw): (s: Scooter)
    requires ValidScooterDraw(d)
    ensures s.id == "scooter-" + NatToString(i + 1)
    ensures s.isInUse <==> d.inUse < 0.15
    ensures s.isAvailable ==> !s.isInUse
    ensures 20 <= s.batteryLevel <= 99
    ensures 0.15 <= s.pricePerMinute < 0.25
    ensures s.model in Models
    ensures InGenerationArea(s.position)
    ensures s.lastUsed.Some? && d.now - DayMs <= s.lastUsed.value <= d.now
  {
    FloorDrawIndex(d.battery, 80);
    FloorDrawIndex(d.model, |Models|);
    var isInUse := d.inUse < 0.15;
    Scooter(
      id := "scooter-" + NatToString(i + 1),
      position := GenerateRandomPosition(d.position),
      batteryLevel := Floor(d.battery * 80.0) + 20,
      isAvailable := !isInUse && d.maintenance > 0.1,
      isInUse := isInUse,
      pricePerMinute := 0.15 + d.price * 0.1,
      model := Models[Floor(d.model * |Models| as real)],
      lastUsed := Some(Trunc(d.now as real - d.age * DayMs as real)))
  }

  /** Generated scooters have pairwise distinct ids. */
  lemma MockScooterIdsDistinct(i: nat, j: nat, di: ScooterDraw, dj: ScooterDraw)
    requires ValidScooterDraw(di) && ValidScooterDraw(dj) && i != j
    ensures MockScooter(i, di).id != MockScooter(j, dj).id
  {
    var prefix := "scooter-";
    if MockScooter(i, di).id == MockScooter(j, dj).id {
      assert (prefix + NatToString(i + 1))[|prefix|..] == NatToString(i + 1);
      assert (prefix + NatToString(j + 1))[|prefix|..] == NatToString(j + 1);
      NatToStringInjective(i + 1, j + 1);
    }
  }

  /** The fleet of `count` scooters built from `draws`. */
  ghost function MockFleet(count: nat, draws: nat -> ScooterDraw): (r: seq<Scooter>)
    requires forall i :: ValidScooterDraw(draws(i))
    ensures |r| == count && forall i | 0 <= i < count :: r[i] == MockScooter(i, draws(i))
  {
    seq(count, i requires 0 <= i => MockScooter(i, draws(i)))
  }

  /** `generateMockScooters`: `count` scooters, the `i`-th built from `draws(i)`. */
  method GenerateMockScooters(count: int, draws: nat -> ScooterDraw) returns (scooters: seq<Scooter>)
    requires forall i :: ValidScooterDraw(draws(i))
    ensures |scooters| == MaxInt(count, 0)
    ensures forall i | 0 <= i < |scooters| :: scooters[i] == MockScooter(i, draws(i))
    ensures scooters == MockFleet(MaxInt(count, 0), draws)
  {
    scooters := [];
    var i := 0;
    while i < count
      invariant 0 <= i == |scooters| <= MaxInt(count, 0)
      invariant forall k | 0 <= k < i :: scooters[k] == MockScooter(k, draws(k))
    {
      scooters := scooters + [MockScooter(i, draws(i))];
      i := i + 1;
    }
  }

  // ---------------------------------------------------------------------------
  // Cost
  // ---------------------------------------------------------------------------

  /** A price in euros and a duration in whole minutes. */
  datatype Cost = Cost(cost: real, duration: int)

  /** Travel time, in minutes, of `distance` metres at `averageSpeed` km/h. */
  function TravelMinutes(distance: real, averageSpeed: real): real
    requires averageSpeed > 0.0
  {
    distance / 1000.0 / averageSpeed * 60.0
  }

  /** `calculateCost`: the duration rounded to whole minutes, and the price of
      the unrounded duration rounded to whole cents. */
  function CalculateCost(distance: real, pricePerMinute: real, averageSpeed: real): (c: Cost)
    requires averageSpeed > 0.0
    ensures var minutes := TravelMinutes(distance, averageSpeed);
      minutes - 0.5 < c.duration as real <= minutes + 0.5
    ensures var price := TravelMinutes(distance, averageSpeed) * pricePerMinute;
      price - 0.005 < c.cost <= price + 0.005
    ensures (c.cost * 100.0).Floor as real == c.cost * 100.0
  {
    var duration := TravelMinutes(distance, averageSpeed);
    var cents := Round(duration * pricePerMinute * 100.0);
    assert cents as real / 100.0 * 100.0 == cents as real;
    Cost(cents as real / 100.0, Round(duration))
  }

  // ---------------------------------------------------------------------------
  // Rides
  // ---------------------------------------------------------------------------

  /** Everything outside the fleet that seeding one ride consults: the draws
      and the routing answer of the normal path, whether that path threw, and
      the fresh draws of the fallback path. */
  datatype RideSeed = RideSeed(
    now: int,
    target: PositionDraw, response: Routing.RouteResponse, progress: real, battery: real,
    threw: bool,
    fallbackTarget: PositionDraw, fallbackProgress: real, fallbackBattery: real)

  predicate ValidRideSeed(s: RideSeed) {
    && ValidPositionDraw(s.target) && IsDraw(s.progress) && IsDraw(s.battery)
    && ValidPositionDraw(s.fallbackTarget) && IsDraw(s.fallbackProgress) && IsDraw(s.fallbackBattery)
  }

  /** The timing of a seeded ride: a progress drawn in [0.1, 0.8), and a
      start time that many milliseconds of the trip before `now`. */
  datatype Schedule = Schedule(progress: real, startTime: int, estimatedEndTime: int)

  function ScheduleRide(duration: int, progressDraw: real, now: int): (s: Schedule)
    requires IsDraw(progressDraw)
    ensures 0.1 <= s.progress < 0.8
    ensures s.estimatedEndTime - s.startTime == duration * 60000
    ensures var elapsed := (duration * 60000) as real * s.progress;
      -1.0 < s.startTime as real - (now as real - elapsed) < 1.0
  {
    var progress := 0.1 + progressDraw * 0.7;
    var totalDurationMs := duration * 60 * 1000;
    var startTime := Trunc(now as real - totalDurationMs as real * progress);
    Schedule(progress, startTime, startTime + totalDurationMs)
  }

  /** The battery level a seeded ride claims its scooter started with. */
  function InitialBattery(batteryLevel: int, draw: real): (b: int)
    requires IsDraw(draw)
    ensures batteryLevel <= b <= batteryLevel + 19
  {
    FloorDrawIndex(draw, 20);
    batteryLevel + Floor(draw * 20.0)
  }

  /** The values a seeded ride is built from, before its current position. */
  datatype RidePlan = RidePlan(
    target: Point, route: seq<Point>, duration: int, schedule: Schedule, initialBatteryLevel: int)

  /** The normal path: a routed trip to a random target. */
  function RoutedPlan(scooter: Scooter, seed: RideSeed, dist: (Point, Point) -> real): (plan: RidePlan)
    requires ValidRideSeed(seed)
    ensures Routing.InServiceArea(plan.target)
    ensures var route := Routing.CalculateRoute(seed.response, scooter.position, plan.target, dist);
      && plan.route == route.waypoints
      && plan.duration == CalculateCost(route.distance, scooter.pricePerMinute, DefaultSpeed).duration
  {
    var target := GenerateRandomPosition(seed.target);
    var route := Routing.CalculateRoute(seed.response, scooter.position, target, dist);
    var duration := CalculateCost(route.distance, scooter.pricePerMinute, DefaultSpeed).duration;
    RidePlan(target, route.waypoints, duration, ScheduleRide(duration, seed.progress, seed.now),
             InitialBattery(scooter.batteryLevel, seed.battery))
  }

  /** The fallback path: the straight line to a fresh random target. */
  function DirectPlan(scooter: Scooter, seed: RideSeed, dist: (Point, Point) -> real): (plan: RidePlan)
    requires ValidRideSeed(seed)
    ensures Routing.InServiceArea(plan.target)
    ensures plan.route == [scooter.position, plan.target]
    ensures plan.duration == CalculateCost(dist(scooter.position, plan.target), scooter.pricePerMinute, DefaultSpeed).duration
  {
    var target := GenerateRandomPosition(seed.fallbackTarget);
    var duration := CalculateCost(dist(scooter.position, target), scooter.pricePerMinute, DefaultSpeed).duration;
    RidePlan(target, [scooter.position, target], duration, ScheduleRide(duration, seed.fallbackProgress, seed.now),
             InitialBattery(scooter.batteryLevel, seed.fallbackBattery))
  }

  /** What `generateMockActiveRides` computes for one in-use scooter. */
  function PlanRide(scooter: Scooter, seed: RideSeed, dist: (Point, Point) -> real): (plan: RidePlan)
    requires ValidRideSeed(seed)
    ensures 0.1 <= plan.schedule.progress < 0.8
    ensures plan.schedule.estimatedEndTime - plan.schedule.startTime == plan.duration * 60000
    ensures scooter.batteryLevel <= plan.initialBatteryLevel <= scooter.batteryLevel + 19
    ensures seed.threw ==> plan.route == [scooter.position, plan.target]
  {
    if seed.threw then DirectPlan(scooter, seed, dist) else RoutedPlan(scooter, seed, dist)
  }

  /** The constant fields of the ride seeded for `scooter` from `seed`. */
  predicate SeededRide(scooter: Scooter, seed: RideSeed, dist: (Point, Point) -> real, ride: Ride)
    requires ValidRideSeed(seed)
  {
    var plan := PlanRide(scooter, seed, dist);
    && ride.id == "ride-" + scooter.id + "-" + IntToString(seed.now)
    && ride.scooterId == scooter.id
    && ride.startPosition == scooter.position
    && ride.targetPosition == plan.target
    && ride.startTime == plan.schedule.startTime
    && ride.estimatedEndTime == plan.schedule.estimatedEndTime
    && ride.progress == plan.schedule.progress
    && ride.route == plan.route
    && !ride.isAutomatic
    && ride.initialBatteryLevel == Some(plan.initialBatteryLevel)
  }

  /** Where a seeded ride's scooter is: interpolated along the route on the
      normal path, on the straight line on the fallback path. */
  ghost predicate SeededPosition(scooter: Scooter, seed: RideSeed, dist: (Point, Point) -> real, p: Point)
    requires ValidRideSeed(seed)
  {
    var plan := PlanRide(scooter, seed, dist);
    if seed.threw then p == Routing.Lerp(scooter.position, plan.target, plan.schedule.progress)
    else Routing.IsInterpolation(plan.route, plan.schedule.progress, dist, p)
  }

  /** One iteration of `generateMockActiveRides`. */
  method SeedRide(scooter: Scooter, seed: RideSeed, dist: (Point, Point) -> real) returns (ride: Ride)
    requires ValidRideSeed(seed) && Routing.NonNegative(dist)
    ensures fresh(ride) && ride.isActive
    ensures SeededRide(scooter, seed, dist, ride)
    ensures SeededPosition(scooter, seed, dist, ride.currentPosition)
  {
    var plan := PlanRide(scooter, seed, dist);
    var currentPosition;
    if seed.threw {
      currentPosition := Routing.Lerp(scooter.position, plan.target, plan.schedule.progress);
    } else {
      currentPosition := Routing.InterpolatePosition(plan.route, plan.schedule.progress, dist);
    }
    ride := new Ride("ride-" + scooter.id + "-" + IntToString(seed.now), scooter.id,
                     scooter.position, currentPosition, plan.target, plan.schedule.startTime,
                     plan.schedule.estimatedEndTime, plan.schedule.progress, plan.route, true, false,
                     Some(plan.initialBatteryLevel));
  }

  predicate IsInUse(s: Scooter) {
    s.isInUse
  }

  /** `ride` is the ride seeded from `seeds(k)` for the `k`-th in-use scooter
      of `scooters`, standing where `SeededPosition` puts it. */
  ghost predicate RideSeededAt(scooters: seq<Scooter>, inUse: seq<nat>, seeds: nat -> RideSeed,
                               dist: (Point, Point) -> real, k: nat, ride: Ride)
    requires forall k :: ValidRideSeed(seeds(k))
    requires k < |inUse| && forall k | 0 <= k < |inUse| :: inUse[k] < |scooters|
  {
    && SeededRide(scooters[inUse[k]], seeds(k), dist, ride)
    && SeededPosition(scooters[inUse[k]], seeds(k), dist, ride.currentPosition)
  }

  /** `rides[k]` is seeded as `RideSeededAt` says, for every `k`. */
  ghost predicate RidesSeeded(scooters: seq<Scooter>, inUse: seq<nat>, seeds: nat -> RideSeed,
                              dist: (Point, Point) -> real, rides: seq<Ride>)
    requires forall k :: ValidRideSeed(seeds(k))
    requires |rides| <= |inUse| && forall k | 0 <= k < |inUse| :: inUse[k] < |scooters|
  {
    forall k {:trigger RideSeededAt(scooters, inUse, seeds, dist, k, rides[k])} | 0 <= k < |rides| ::
      RideSeededAt(scooters, inUse, seeds, dist, k, rides[k])
  }

  /** Entry `k` of the seeded rides extended by `ride`. */
  lemma SeededAfterSnoc(scooters: seq<Scooter>, inUse: seq<nat>, seeds: nat -> RideSeed,
                        dist: (Point, Point) -> real, rides: seq<Ride>, ride: Ride, k: nat)
    requires forall k :: ValidRideSeed(seeds(k))
    requires |rides| < |inUse| && forall k | 0 <= k < |inUse| :: inUse[k] < |scooters|
    requires RidesSeeded(scooters, inUse, seeds, dist, rides)
    requires RideSeededAt(scooters, inUse, seeds, dist, |rides|, ride)
    requires k <= |rides|
    ensures RideSeededAt(scooters, inUse, seeds, dist, k, (rides + [ride])[k])
  {
    if k < |rides| {
      assert (rides + [ride])[k] == rides[k];
      assert RideSeededAt(scooters, inUse, seeds, dist, k, rides[k]);
    } else {
      assert (rides + [ride])[k] == ride;
    }
  }

  /** Extending the seeded rides by the ride of the next in-use scooter. */
  lemma RidesSeededSnoc(scooters: seq<Scooter>, inUse: seq<nat>, seeds: nat -> RideSeed,
                        dist: (Point, Point) -> real, rides: seq<Ride>, ride: Ride)
    requires forall k :: ValidRideSeed(seeds(k))
    requires |rides| < |inUse| && forall k | 0 <= k < |inUse| :: inUse[k] < |scooters|
    requires RidesSeeded(scooters, inUse, seeds, dist, rides)
    requires RideSeededAt(scooters, inUse, seeds, dist, |rides|, ride)
    ensures RidesSeeded(scooters, inUse, seeds, dist, rides + [ride])
  {
    forall k | 0 <= k < |rides| + 1
      ensures RideSeededAt(scooters, inUse, seeds, dist, k, (rides + [ride])[k])
    {
      SeededAfterSnoc(scooters, inUse, seeds, dist, rides, ride, k);
    }
  }

  /** The fleet once the scooter at `inUse[k]` has been moved to the current
      position of `rides[k]`, for every `k < |rides|`. */
  function Moved(scooters: seq<Scooter>, inUse: seq<nat>, rides: seq<Ride>): (r: seq<Scooter>)
    requires |rides| <= |inUse| && forall k | 0 <= k < |inUse| :: inUse[k] < |scooters|
    ensures |r| == |scooters|
    decreases |rides|
  {
    var n := |rides|;
    if n == 0 then scooters
    else Moved(scooters, inUse, rides[..n - 1])[inUse[n - 1] := scooters[inUse[n - 1]].(position := rides[n - 1].currentPosition)]
  }

  lemma {:induction false} MovedAt(scooters: seq<Scooter>, inUse: seq<nat>, rides: seq<Ride>, j: nat)
    requires |rides| <= |inUse| && forall k | 0 <= k < |inUse| :: inUse[k] < |scooters|
    requires forall a, b | 0 <= a < b < |inUse| :: inUse[a] < inUse[b]
    requires j < |scooters|
    ensures forall k | 0 <= k < |rides| && inUse[k] == j ::
      Moved(scooters, inUse, rides)[j] == scooters[j].(position := rides[k].currentPosition)
    ensures (forall k | 0 <= k < |rides| :: inUse[k] != j) ==> Moved(scooters, inUse, rides)[j] == scooters[j]
    decreases |rides|
  {
    var n := |rides|;
    if n > 0 {
      MovedAt(scooters, inUse, rides[..n - 1], j);
    }
  }

  /** A scooter that is not in use is left where it was. */
  lemma MovedKeepsIdle(scooters: seq<Scooter>, rides: seq<Ride>, j: nat)
    requires |rides| <= |IndicesWhere(scooters, IsInUse)|
    requires j < |scooters| && !scooters[j].isInUse
    ensures Moved(scooters, IndicesWhere(scooters, IsInUse), rides)[j] == scooters[j]
  {
    MovedAt(scooters, IndicesWhere(scooters, IsInUse), rides, j);
  }

  /** One iteration of `generateMockActiveRides`: seed the ride of the
      `k`-th in-use scooter and move that scooter to the ride's position.
      `before` and `rides` are the fleet before the loop and the rides so far. */
  method SeedInPlace(scooters: array<Scooter>, inUse: seq<nat>, k: nat, seeds: nat -> RideSeed,
                     dist: (Point, Point) -> real, ghost before: seq<Scooter>, ghost rides: seq<Ride>)
    returns (ride: Ride)
    requires forall k :: ValidRideSeed(seeds(k))
    requires Routing.NonNegative(dist)
    requires k == |rides| < |inUse| && forall m | 0 <= m < |inUse| :: inUse[m] < |before| == scooters.Length
    requires forall a, b | 0 <= a < b < |inUse| :: inUse[a] < inUse[b]
    requires scooters[..] == Moved(before, inUse, rides)
    requires RidesSeeded(before, inUse, seeds, dist, rides)
    modifies scooters
    ensures fresh(ride) && ride.isActive
    ensures scooters[..] == Moved(before, inUse, rides + [ride])
    ensures RidesSeeded(before, inUse, seeds, dist, rides + [ride])
  {
    MovedAt(before, inUse, rides, inUse[k]);
    var scooter := scooters[inUse[k]];
    ride := SeedRide(scooter, seeds(k), dist);
    scooters[inUse[k]] := scooter.(position := ride.currentPosition);
    assert RideSeededAt(before, inUse, seeds, dist, k, ride);
    RidesSeededSnoc(before, inUse, seeds, dist, rides, ride);
    assert (rides + [ride])[..k] == rides;
  }

  /** `generateMockActiveRides`: one ride per in-use scooter, in fleet order,
      the `k`-th seeded from `seeds(k)`; each such scooter is moved to its
      ride's current position and no other scooter changes. */
  method GenerateMockActiveRides(scooters: array<Scooter>, seeds: nat -> RideSeed, dist: (Point, Point) -> real)
    returns (rides: seq<Ride>)
    requires forall k :: ValidRideSeed(seeds(k))
    requires Routing.NonNegative(dist)
    modifies scooters
    ensures var inUse := IndicesWhere(old(scooters[..]), IsInUse);
      && |rides| == |inUse|
      && (forall r | r in rides :: fresh(r) && r.isActive)
      && scooters[..] == Moved(old(scooters[..]), inUse, rides)
      && RidesSeeded(old(scooters[..]), inUse, seeds, dist, rides)
  {
    var inUse := IndicesWhere(scooters[..], IsInUse);
    ghost var before := scooters[..];
    rides := [];
    var k := 0;
    while k < |inUse|
      invariant 0 <= k <= |inUse| && |rides| == k
      invariant forall r | r in rides :: fresh(r) && r.isActive
      invariant scooters[..] == Moved(before, inUse, rides)
      invariant RidesSeeded(before, inUse, seeds, dist, rides)
    {
      var ride := SeedInPlace(scooters, inUse, k, seeds, dist, before, rides);
      rides := rides + [ride];
      k := k + 1;
    }
  }
}
