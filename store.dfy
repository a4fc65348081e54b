/** The fleet and ride store of `src/stores/scooters.ts`. The module-level
    reactive state is one `FleetStore` object; each `simulateRide` interval
    is one `RideSimulation` object, and one firing of its timer is one call
    of `Tick`. Clock readings (`Date.now()`), `Math.random()` draws, timer
    handles and routing answers are inputs. */
module ScooterStore {
  import opened Basics
  import opened ScooterTypes
  import Routing
  import MockData

  /** Fewer free scooters than this and no automatic ride starts. */
  const MinAvailableScooters: nat := 8
  /** Automatic rides may occupy at most this share of the fleet. */
  const MaxAutoRidesPercentage: real := 0.3
  /** The chance, per check, that an automatic ride starts. */
  const AutoRideProbability: real := 0.15
  /** A scooter needs more battery than this to ride automatically. */
  const AutoRideMinBattery: int := 30
  /** Milliseconds between two database writes of a running ride. */
  const DbUpdateInterval: int := 10000

  // ---------------------------------------------------------------------------
  // Lookups
  // ---------------------------------------------------------------------------

  /** `scooters.find(s => s.id === id)`, as a position: the first match. */
  function FindScooter(scooters: seq<Scooter>, id: string): (r: Option<nat>)
    ensures r.Some? ==> r.value < |scooters| && scooters[r.value].id == id
    ensures r.Some? ==> forall k | 0 <= k < r.value :: scooters[k].id != id
    ensures r.None? <==> forall k | 0 <= k < |scooters| :: scooters[k].id != id
  {
    if scooters == [] then None
    else if scooters[0].id == id then Some(0)
    else
      match FindScooter(scooters[1..], id)
      case None => None
      case Some(k) => Some(k + 1)
  }

  /** `activeRides.findIndex(r => r.id === id)`, as an option. */
  function FindRide(rides: seq<Ride>, id: string): (r: Option<nat>)
    ensures r.Some? ==> r.value < |rides| && rides[r.value].id == id
    ensures r.Some? ==> forall k | 0 <= k < r.value :: rides[k].id != id
    ensures r.None? <==> forall k | 0 <= k < |rides| :: rides[k].id != id
  {
    if rides == [] then None
    else if rides[0].id == id then Some(0)
    else
      match FindRide(rides[1..], id)
      case None => None
      case Some(k) => Some(k + 1)
  }

  /** The lookups depend on the ids alone. */
  lemma {:induction false} FindScooterByIds(s: seq<Scooter>, t: seq<Scooter>, id: string)
    requires |s| == |t| && forall k | 0 <= k < |s| :: s[k].id == t[k].id
    ensures FindScooter(s, id) == FindScooter(t, id)
  {
    if s != [] {
      FindScooterByIds(s[1..], t[1..], id);
    }
  }

  lemma {:induction false} FindRideByIds(s: seq<Ride>, t: seq<Ride>, id: string)
    requires |s| == |t| && forall k | 0 <= k < |s| :: s[k].id == t[k].id
    ensures FindRide(s, id) == FindRide(t, id)
  {
    if s != [] {
      FindRideByIds(s[1..], t[1..], id);
    }
  }

  /** The position of the first active ride of a scooter (`getActiveRideForScooter`). */
  function FirstActiveRide(rides: seq<Ride>, scooterId: string): (r: Option<nat>)
    reads rides
    ensures r.Some? ==> r.value < |rides| && rides[r.value].scooterId == scooterId && rides[r.value].isActive
    ensures r.Some? ==> forall k | 0 <= k < r.value :: !(rides[k].scooterId == scooterId && rides[k].isActive)
    ensures r.None? <==> forall k | 0 <= k < |rides| :: !(rides[k].scooterId == scooterId && rides[k].isActive)
  {
    if rides == [] then None
    else if rides[0].scooterId == scooterId && rides[0].isActive then Some(0)
    else
      match FirstActiveRide(rides[1..], scooterId)
      case None => None
      case Some(k) => Some(k + 1)
  }

  // ---------------------------------------------------------------------------
  // Scooter updates
  // ---------------------------------------------------------------------------

  /** The ways the store rewrites a scooter record. */
  datatype ScooterUpdate =
    | MoveTo(position: Point)                 // a simulation tick
    | TakeIntoUse                             // a ride starts
    | Release(target: Point, time: int)       // a ride ends

  function Apply(u: ScooterUpdate, s: Scooter): (r: Scooter)
    ensures r.id == s.id && r.batteryLevel == s.batteryLevel && r.pricePerMinute == s.pricePerMinute && r.model == s.model
    ensures u.MoveTo? ==> r == s.(position := u.position)
    ensures u.TakeIntoUse? ==> r.isInUse && !r.isAvailable && r.position == s.position && r.lastUsed == s.lastUsed
    ensures u.Release? ==> !r.isInUse && r.isAvailable && r.position == u.target && r.lastUsed == Some(u.time)
  {
    match u
    case MoveTo(p) => s.(position := p)
    case TakeIntoUse => s.(isInUse := true, isAvailable := false)
    case Release(target, time) => s.(isInUse := false, isAvailable := true, position := target, lastUsed := Some(time))
  }

  /** The fleet after the first scooter with id `id` is rewritten by `u`;
      a missing id leaves the fleet as it is. */
  function UpdateFirst(scooters: seq<Scooter>, id: string, u: ScooterUpdate): (r: seq<Scooter>)
    ensures |r| == |scooters|
    ensures FindScooter(scooters, id).None? ==> r == scooters
    ensures forall k | 0 <= k < |r| :: r[k].id == scooters[k].id
    ensures forall k | 0 <= k < |r| && FindScooter(scooters, id) != Some(k) :: r[k] == scooters[k]
    ensures FindScooter(scooters, id).Some? ==>
      r[FindScooter(scooters, id).value] == Apply(u, scooters[FindScooter(scooters, id).value])
  {
    match FindScooter(scooters, id)
    case None => scooters
    case Some(i) => scooters[i := Apply(u, scooters[i])]
  }

  /** An update keeps every id, so later lookups find the same positions. */
  lemma UpdateKeepsLookup(scooters: seq<Scooter>, id: string, u: ScooterUpdate, other: string)
    ensures FindScooter(UpdateFirst(scooters, id, u), other) == FindScooter(scooters, other)
  {
    FindScooterByIds(UpdateFirst(scooters, id, u), scooters, other);
  }

  // ---------------------------------------------------------------------------
  // Automatic rides
  // ---------------------------------------------------------------------------

  /** The filter of `getAvailableScootersForAutoRide`. */
  predicate AutoRideCandidate(s: Scooter) {
    s.isAvailable && !s.isInUse && s.batteryLevel > AutoRideMinBattery
  }

  /** `getAvailableScootersForAutoRide`: the candidates, in fleet order. */
  function AutoRideCandidates(scooters: seq<Scooter>): (r: seq<Scooter>)
    ensures |r| == |IndicesWhere(scooters, AutoRideCandidate)| <= |scooters|
    ensures forall k | 0 <= k < |r| :: r[k] == scooters[IndicesWhere(scooters, AutoRideCandidate)[k]]
    ensures forall s | s in r :: s in scooters && AutoRideCandidate(s)
    ensures forall s | s in scooters && AutoRideCandidate(s) :: s in r
  {
    Select(scooters, AutoRideCandidate)
  }

  /** The number of automatic rides among `rides`. */
  function AutomaticCount(rides: seq<Ride>): (n: nat)
    ensures n <= |rides|
  {
    if rides == [] then 0 else (if rides[0].isAutomatic then 1 else 0) + AutomaticCount(rides[1..])
  }

  lemma {:induction false} AutomaticCountConcat(a: seq<Ride>, b: seq<Ride>)
    ensures AutomaticCount(a + b) == AutomaticCount(a) + AutomaticCount(b)
  {
    if a == [] {
      assert a + b == b;
    } else {
      assert (a + b)[1..] == a[1..] + b;
      AutomaticCountConcat(a[1..], b);
    }
  }

  /** Removing one ride lowers the count by one exactly when it was automatic. */
  lemma {:induction false} AutomaticCountRemove(rides: seq<Ride>, i: nat)
    requires i < |rides|
    ensures AutomaticCount(rides[..i] + rides[i + 1..]) == AutomaticCount(rides) - (if rides[i].isAutomatic then 1 else 0)
  {
    var rest := rides[..i] + rides[i + 1..];
    if i == 0 {
      assert rest == rides[1..];
    } else {
      AutomaticCountRemove(rides[1..], i - 1);
      assert rest[0] == rides[0];
      assert rides[1..][..i - 1] == rides[1..i];
      assert rides[1..][i..] == rides[i + 1..];
      assert rest[1..] == rides[1..i] + rides[i + 1..];
    }
  }

  lemma AutomaticCountReplace(rides: seq<Ride>, i: nat, r: Ride)
    requires i < |rides| && r.isAutomatic == rides[i].isAutomatic
    ensures AutomaticCount(rides[i := r]) == AutomaticCount(rides)
  {
    var after := rides[i := r];
    assert rides == rides[..i] + ([rides[i]] + rides[i + 1..]);
    assert after == rides[..i] + ([r] + rides[i + 1..]);
    AutomaticCountConcat(rides[..i], [rides[i]] + rides[i + 1..]);
    AutomaticCountConcat(rides[..i], [r] + rides[i + 1..]);
  }

  lemma AutomaticCountAppend(rides: seq<Ride>, r: Ride)
    ensures AutomaticCount(rides + [r]) == AutomaticCount(rides) + (if r.isAutomatic then 1 else 0)
  {
    AutomaticCountConcat(rides, [r]);
  }

  /** `Math.floor(scooters.length * MAX_AUTO_RIDES_PERCENTAGE)`. */
  function MaxAutoRides(fleetSize: nat): (n: int)
    ensures 0 <= n && n as real <= fleetSize as real * MaxAutoRidesPercentage < n as real + 1.0
  {
    Floor(fleetSize as real * MaxAutoRidesPercentage)
  }

  /** `canStartAutomaticRide`, with `draw` the `Math.random()` value of its
      last conjunct. */
  function CanStartAutomaticRide(scooters: seq<Scooter>, rides: seq<Ride>, draw: real): (r: bool)
    ensures r ==> |AutoRideCandidates(scooters)| > MinAvailableScooters && AutomaticCount(rides) < MaxAutoRides(|scooters|)
    ensures r ==> |scooters| > MinAvailableScooters && MaxAutoRides(|scooters|) >= 1
  {
    && |AutoRideCandidates(scooters)| > MinAvailableScooters
    && AutomaticCount(rides) < MaxAutoRides(|scooters|)
    && draw < AutoRideProbability
  }

  /** Taking one candidate out of service leaves one candidate fewer. */
  lemma {:induction false} CandidatesAfterTaking(s: seq<Scooter>, i: nat, x: Scooter)
    requires i < |s| && AutoRideCandidate(s[i]) && !AutoRideCandidate(x)
    ensures |IndicesWhere(s[i := x], AutoRideCandidate)| == |IndicesWhere(s, AutoRideCandidate)| - 1
    decreases |s|
  {
    var n := |s|;
    var t := s[i := x];
    var before := IndicesWhere(s[..n - 1], AutoRideCandidate);
    var after := IndicesWhere(t[..n - 1], AutoRideCandidate);
    if i == n - 1 {
      assert t[..n - 1] == s[..n - 1] && t[n - 1] == x;
      assert IndicesWhere(s, AutoRideCandidate) == before + [n - 1];
      assert IndicesWhere(t, AutoRideCandidate) == after;
    } else {
      assert t[..n - 1] == s[..n - 1][i := x];
      assert t[n - 1] == s[n - 1];
      CandidatesAfterTaking(s[..n - 1], i, x);
      assert |after| == |before| - 1;
      if AutoRideCandidate(s[n - 1]) {
        assert IndicesWhere(s, AutoRideCandidate) == before + [n - 1];
        assert IndicesWhere(t, AutoRideCandidate) == after + [n - 1];
      } else {
        assert IndicesWhere(s, AutoRideCandidate) == before;
        assert IndicesWhere(t, AutoRideCandidate) == after;
      }
    }
  }

  /** The fleet position of the candidate a draw selects:
      `availableScooters[Math.floor(Math.random() * availableScooters.length)]`. */
  function PickCandidate(scooters: seq<Scooter>, draw: real): (i: nat)
    requires IsDraw(draw) && |AutoRideCandidates(scooters)| > 0
    ensures i < |scooters| && AutoRideCandidate(scooters[i])
  {
    var idx := IndicesWhere(scooters, AutoRideCandidate);
    assert |idx| == |AutoRideCandidates(scooters)|;
    FloorDrawIndex(draw, |idx|);
    var k := Floor(draw * |idx| as real);
    assert 0 <= k < |idx|;
    idx[k]
  }

  /** The number of scooters generated for an empty store. */
  const InitialFleetSize: nat := 25

  /** The restore filter of `initializeScooters`: the active rides whose
      scooter is in the fleet, in stored order. */
  function RestorableRides(scooters: seq<Scooter>, rides: seq<Ride>): (r: seq<Ride>)
    reads rides
    ensures |r| <= |rides| && multiset(r) <= multiset(rides)
    ensures forall x | x in r :: x in rides && x.isActive && FindScooter(scooters, x.scooterId).Some?
    ensures forall x | x in rides && x.isActive && FindScooter(scooters, x.scooterId).Some? :: x in r
  {
    if rides == [] then []
    else
      assert rides == [rides[0]] + rides[1..];
      var rest := RestorableRides(scooters, rides[1..]);
      if rides[0].isActive && FindScooter(scooters, rides[0].scooterId).Some? then [rides[0]] + rest else rest
  }

  /** The filter keeps stored order: restoring two runs of rides is
      restoring each run, one after the other. */
  lemma {:induction false} RestorableRidesConcat(scooters: seq<Scooter>, a: seq<Ride>, b: seq<Ride>)
    ensures RestorableRides(scooters, a + b) == RestorableRides(scooters, a) + RestorableRides(scooters, b)
  {
    if a == [] {
      assert a + b == b;
    } else {
      assert (a + b)[1..] == a[1..] + b;
      RestorableRidesConcat(scooters, a[1..], b);
    }
  }

  /** A single ride is restored exactly when it is active and its scooter exists. */
  lemma RestorableRide(scooters: seq<Scooter>, x: Ride)
    ensures RestorableRides(scooters, [x]) == if x.isActive && FindScooter(scooters, x.scooterId).Some? then [x] else []
  {
    assert [x][1..] == [];
  }

  /** `sims` runs one fresh simulation per ride of `rides`, in order. */
  ghost predicate Simulating(sims: seq<RideSimulation>, rides: seq<Ride>)
    reads sims
  {
    && |sims| == |rides|
    && forall k | 0 <= k < |sims| ::
         sims[k].ride == rides[k] && sims[k].running && sims[k].lastDbUpdate == 0
         && sims[k].totalDuration == rides[k].estimatedEndTime - rides[k].startTime
  }

  /** `rides.forEach(simulateRide)`. */
  method StartSimulations(rides: seq<Ride>) returns (sims: seq<RideSimulation>)
    ensures Simulating(sims, rides)
    ensures forall k | 0 <= k < |sims| :: fresh(sims[k])
  {
    sims := [];
    var k := 0;
    while k < |rides|
      invariant 0 <= k <= |rides| && Simulating(sims, rides[..k])
      invariant forall m | 0 <= m < |sims| :: fresh(sims[m])
    {
      var sim := new RideSimulation(rides[k]);
      sims := sims + [sim];
      k := k + 1;
    }
    assert rides[..k] == rides;
  }

  /** Every field of a ride the store has just started. */
  predicate StartedRide(ride: Ride, id: string, scooter: Scooter, target: Point, route: seq<Point>,
                        duration: int, now: int, automatic: bool)
    reads ride
  {
    && ride.id == id && ride.scooterId == scooter.id
    && ride.startPosition == scooter.position && ride.currentPosition == scooter.position
    && ride.targetPosition == target
    && ride.startTime == now && ride.estimatedEndTime - ride.startTime == duration * 60000
    && ride.progress == 0.0 && ride.route == route
    && ride.isActive && ride.isAutomatic == automatic
    && ride.initialBatteryLevel == Some(scooter.batteryLevel)
  }

  // ---------------------------------------------------------------------------
  // Clock arithmetic
  // ---------------------------------------------------------------------------

  /** JavaScript's `%`: the remainder takes the sign of the dividend. */
  function JsRemainder(a: int, b: int): (r: int)
    requires b > 0
    ensures a >= 0 ==> r == a % b
    ensures -b < r < b && (a < 0 ==> r <= 0)
    ensures a < 0 ==> r == (if a % b == 0 then 0 else a % b - b)
  {
    if a >= 0 then a % b
    else
      var q, m := (-a) / b, (-a) % b;
      if m == 0 then
        ModUnique(a, b, -q, 0);
        -m
      else
        ModUnique(a, b, -q - 1, b - m);
        -m
  }

  /** The Euclidean remainder is the only one in [0, b). */
  lemma ModUnique(a: int, b: int, k: int, r: int)
    requires b > 0 && a == k * b + r && 0 <= r < b
    ensures a % b == r
  {
    var d := k - a / b;
    assert d * b == a % b - r;
  }

  datatype Duration = Duration(minutes: int, seconds: int)

  /** `calculateRideDuration` for a ride started at `startTime`, read at `now`. */
  function CalculateRideDuration(startTime: int, now: int): (d: Duration)
    ensures var totalSeconds := (now - startTime) / 1000;
      now >= startTime ==> 0 <= d.seconds < 60 && d.minutes * 60 + d.seconds == totalSeconds
    ensures now < startTime ==> d.minutes < 0 && -60 < d.seconds <= 0
  {
    var elapsedMs := now - startTime;
    var totalSeconds := Floor(elapsedMs as real / 1000.0);
    var minutes := Floor(totalSeconds as real / 60.0);
    FloorIsDiv(elapsedMs, 1000);
    FloorIsDiv(totalSeconds, 60);
    Duration(minutes, JsRemainder(totalSeconds, 60))
  }

  /** `Math.floor(a / b)` on integers is Dafny's division by a positive divisor. */
  lemma FloorIsDiv(a: int, b: int)
    requires b > 0
    ensures Floor(a as real / b as real) == a / b
  {
    var q, m := a / b, a % b;
    var br := b as real;
    assert a as real == q as real * br + m as real;
    var f := m as real / br;
    assert 0.0 <= f < 1.0 by {
      assert f * br == m as real;
    }
    assert a as real / br == q as real + f by {
      assert (q as real + f) * br == a as real;
    }
  }

  /** `calculateBatteryUsage`: 0.3 percent per minute ridden, rounded and
      clamped to [0, 100]. */
  function CalculateBatteryUsage(startTime: int, now: int, initialBattery: int): (b: int)
    ensures 0 <= b <= 100
    ensures now >= startTime && initialBattery <= 100 ==> b <= MaxInt(initialBattery, 0)
  {
    var elapsedMinutes := (now - startTime) as real / 60000.0;
    var usedBattery := elapsedMinutes * 0.3;
    MinInt(100, MaxInt(0, initialBattery - Round(usedBattery)))
  }

  /** The battery reading never rises while a ride goes on. */
  lemma BatteryNonIncreasing(startTime: int, t1: int, t2: int, initialBattery: int)
    requires t1 <= t2
    ensures CalculateBatteryUsage(startTime, t2, initialBattery) <= CalculateBatteryUsage(startTime, t1, initialBattery)
  {
    var u1 := (t1 - startTime) as real / 60000.0 * 0.3;
    var u2 := (t2 - startTime) as real / 60000.0 * 0.3;
    assert u1 <= u2;
    assert Round(u1) <= Round(u2);
  }

  // ---------------------------------------------------------------------------
  // Simulation progress
  // ---------------------------------------------------------------------------

  /** `Math.min(elapsed / totalDuration, 1)`; a zero duration divides to
      +Infinity, which the minimum turns into 1. */
  function TickProgress(elapsed: int, totalDuration: int): (p: real)
    requires totalDuration != 0 || elapsed > 0
    ensures p <= 1.0
    ensures totalDuration > 0 ==> (p >= 1.0 <==> elapsed >= totalDuration)
    ensures totalDuration > 0 && elapsed >= 0 ==> 0.0 <= p
  {
    if totalDuration == 0 then 1.0
    else
      var q := elapsed as real / totalDuration as real;
      assert totalDuration > 0 ==> (q >= 1.0 <==> elapsed >= totalDuration) by {
        if totalDuration > 0 {
          assert q * totalDuration as real == elapsed as real;
        }
      }
      MinReal(q, 1.0)
  }

  /** `copy` is `{ ...orig, progress, currentPosition }`. */
  predicate Refreshed(copy: Ride, orig: Ride, progress: real, position: Point)
    reads copy, orig
  {
    SameRide(copy, orig) && copy.isActive == orig.isActive
    && copy.progress == progress && copy.currentPosition == position
  }

  // ---------------------------------------------------------------------------
  // The store
  // ---------------------------------------------------------------------------

  /** The fleet an empty store generates: the 25 mock scooters with every
      in-use one moved to the start of its seeded ride, one ride per in-use
      scooter in fleet order. */
  ghost predicate GeneratedFleet(scooters: seq<Scooter>, rides: seq<Ride>, draws: nat -> MockData.ScooterDraw,
                                 seeds: nat -> MockData.RideSeed, dist: (Point, Point) -> real)
    requires forall i :: MockData.ValidScooterDraw(draws(i))
    requires forall k :: MockData.ValidRideSeed(seeds(k))
  {
    var fleet := MockData.MockFleet(InitialFleetSize, draws);
    var inUse := IndicesWhere(fleet, MockData.IsInUse);
    && |rides| == |inUse|
    && scooters == MockData.Moved(fleet, inUse, rides)
    && MockData.RidesSeeded(fleet, inUse, seeds, dist, rides)
  }

  /** The generating branch of `initializeScooters`: 25 mock scooters, and
      one seeded ride per in-use scooter, seeded on the very scooter
      objects the store then holds, so the fleet shows the moved positions. */
  method GenerateFleet(draws: nat -> MockData.ScooterDraw, seeds: nat -> MockData.RideSeed, dist: (Point, Point) -> real)
    returns (scooters: seq<Scooter>, rides: seq<Ride>)
    requires forall i :: MockData.ValidScooterDraw(draws(i))
    requires forall k :: MockData.ValidRideSeed(seeds(k))
    requires Routing.NonNegative(dist)
    ensures GeneratedFleet(scooters, rides, draws, seeds, dist)
    ensures forall r | r in rides :: fresh(r) && r.isActive
  {
    var generated := MockData.GenerateMockScooters(InitialFleetSize, draws);
    assert MaxInt(InitialFleetSize, 0) == InitialFleetSize;
    var fleet := new Scooter[|generated|](i requires 0 <= i < |generated| => generated[i]);
    assert fleet[..] == generated;
    rides := MockData.GenerateMockActiveRides(fleet, seeds, dist);
    scooters := fleet[..];
  }

  /** The reactive state of the store. */
  class FleetStore {
    var scooters: seq<Scooter>
    var selectedScooter: Option<Scooter>
    var targetPosition: Option<Point>
    var routeInfo: Option<RouteInfo>
    var activeRides: seq<Ride>
    var isCalculatingRoute: bool
    /** The handle of the automatic-ride interval; browsers hand out
        positive handles, so a stored handle is always truthy. */
    var automaticRideInterval: Option<nat>

    constructor ()
      ensures scooters == [] && activeRides == []
      ensures Selection() == (None, None, None)
      ensures !isCalculatingRoute && automaticRideInterval.None?
    {
      scooters := [];
      selectedScooter := None;
      targetPosition := None;
      routeInfo := None;
      activeRides := [];
      isCalculatingRoute := false;
      automaticRideInterval := None;
    }

    /** What the user has picked: a scooter, a target and the route preview. */
    function Selection(): (Option<Scooter>, Option<Point>, Option<RouteInfo>)
      reads this
    {
      (selectedScooter, targetPosition, routeInfo)
    }

    /** At most 30% of the fleet rides automatically. */
    predicate AutoRidesWithinCap()
      reads this
    {
      AutomaticCount(activeRides) <= MaxAutoRides(|scooters|)
    }

    /** `getActiveRideForScooter`. */
    function ActiveRideForScooter(scooterId: string): (r: Option<Ride>)
      reads this, activeRides
      ensures r.Some? ==> r.value in activeRides && r.value.scooterId == scooterId && r.value.isActive
      ensures r.Some? ==> exists k | 0 <= k < |activeRides| ::
        (&& activeRides[k] == r.value
         && forall j | 0 <= j < k :: !(activeRides[j].scooterId == scooterId && activeRides[j].isActive))
      ensures r.None? <==> forall k | 0 <= k < |activeRides| :: !(activeRides[k].scooterId == scooterId && activeRides[k].isActive)
    {
      match FirstActiveRide(activeRides, scooterId)
      case None => None
      case Some(k) => Some(activeRides[k])
    }

    /** `startAutomaticRideSystem`: a second start keeps the running interval. */
    method StartAutomaticRideSystem(handle: nat)
      modifies this
      ensures old(automaticRideInterval).Some? ==> automaticRideInterval == old(automaticRideInterval)
      ensures old(automaticRideInterval).None? ==> automaticRideInterval == Some(handle)
      ensures scooters == old(scooters) && activeRides == old(activeRides) && Selection() == old(Selection())
      ensures isCalculatingRoute == old(isCalculatingRoute)
    {
      if automaticRideInterval.Some? {
        return;
      }
      automaticRideInterval := Some(handle);
    }

    /** `stopAutomaticRideSystem`: stopping a stopped system changes nothing. */
    method StopAutomaticRideSystem()
      modifies this
      ensures automaticRideInterval.None?
      ensures scooters == old(scooters) && activeRides == old(activeRides) && Selection() == old(Selection())
      ensures isCalculatingRoute == old(isCalculatingRoute)
    {
      if automaticRideInterval.Some? {
        automaticRideInterval := None;
      }
    }

    /** `selectScooter`: a new selection drops the previous target and route. */
    method SelectScooter(scooter: Scooter)
      modifies this
      ensures Selection() == (Some(scooter), None, None)
      ensures scooters == old(scooters) && activeRides == old(activeRides)
      ensures isCalculatingRoute == old(isCalculatingRoute) && automaticRideInterval == old(automaticRideInterval)
    {
      selectedScooter := Some(scooter);
      targetPosition := None;
      routeInfo := None;
    }

    /** `selectScooterByRide`: selects the first scooter carrying the ride's scooter id. */
    method SelectScooterByRide(ride: Ride) returns (found: bool)
      modifies this
      ensures found <==> FindScooter(old(scooters), ride.scooterId).Some?
      ensures found ==> Selection() == (Some(old(scooters)[FindScooter(old(scooters), ride.scooterId).value]), None, None)
      ensures !found ==> Selection() == old(Selection())
      ensures scooters == old(scooters) && activeRides == old(activeRides)
      ensures isCalculatingRoute == old(isCalculatingRoute) && automaticRideInterval == old(automaticRideInterval)
    {
      var i := FindScooter(scooters, ride.scooterId);
      if i.None? {
        return false;
      }
      SelectScooter(scooters[i.value]);
      return true;
    }

    /** `clearSelection`. */
    method ClearSelection()
      modifies this
      ensures Selection() == (None, None, None)
      ensures scooters == old(scooters) && activeRides == old(activeRides)
      ensures isCalculatingRoute == old(isCalculatingRoute) && automaticRideInterval == old(automaticRideInterval)
    {
      selectedScooter := None;
      targetPosition := None;
      routeInfo := None;
    }

    /** `setTargetPosition`: with a scooter selected, plans the trip to
        `position` with the routing answer `response`. */
    method SetTargetPosition(position: Point, response: Routing.RouteResponse, dist: (Point, Point) -> real)
      modifies this
      ensures old(selectedScooter).None? ==> Selection() == old(Selection()) && isCalculatingRoute == old(isCalculatingRoute)
      ensures old(selectedScooter).Some? ==>
        var scooter := old(selectedScooter).value;
        var route := Routing.CalculateRoute(response, scooter.position, position, dist);
        var cost := MockData.CalculateCost(route.distance, scooter.pricePerMinute, MockData.DefaultSpeed);
        && selectedScooter == old(selectedScooter) && targetPosition == Some(position)
        && routeInfo == Some(RouteInfo(route.distance, cost.duration, cost.cost, route.waypoints))
        && routeInfo.value.waypoints != []
        && !isCalculatingRoute
      ensures scooters == old(scooters) && activeRides == old(activeRides)
      ensures automaticRideInterval == old(automaticRideInterval)
    {
      if selectedScooter.None? {
        return;
      }
      var scooter := selectedScooter.value;
      targetPosition := Some(position);
      isCalculatingRoute := true;
      var route := Routing.CalculateRoute(response, scooter.position, position, dist);
      Routing.CalculatedRouteShape(response, scooter.position, position, dist);
      var cost := MockData.CalculateCost(route.distance, scooter.pricePerMinute, MockData.DefaultSpeed);
      routeInfo := Some(RouteInfo(route.distance, cost.duration, cost.cost, route.waypoints));
      isCalculatingRoute := false;
    }

    /** `startRide`: with a scooter, a target and a route preview, records a
        new ride, takes the scooter into use and clears the selection. */
    method StartRide(now: int) returns (rideId: Option<string>, sim: RideSimulation?)
      modifies this
      ensures old(selectedScooter.None? || targetPosition.None? || routeInfo.None?) ==>
        && rideId.None? && sim == null
        && scooters == old(scooters) && activeRides == old(activeRides) && Selection() == old(Selection())
      ensures old(selectedScooter.Some? && targetPosition.Some? && routeInfo.Some?) ==>
        var scooter := old(selectedScooter).value;
        var info := old(routeInfo).value;
        && rideId == Some("ride-" + IntToString(now))
        && sim != null && fresh(sim) && fresh(sim.ride) && sim.running && sim.lastDbUpdate == 0
        && StartedRide(sim.ride, rideId.value, scooter, old(targetPosition).value, info.waypoints, info.duration, now, false)
        && activeRides == old(activeRides) + [sim.ride]
        && scooters == UpdateFirst(old(scooters), scooter.id, TakeIntoUse)
        && Selection() == (None, None, None)
      ensures old(AutoRidesWithinCap()) ==> AutoRidesWithinCap()
      ensures isCalculatingRoute == old(isCalculatingRoute) && automaticRideInterval == old(automaticRideInterval)
    {
      if selectedScooter.None? || targetPosition.None? || routeInfo.None? {
        return None, null;
      }
      var scooter := selectedScooter.value;
      var info := routeInfo.value;
      var id := "ride-" + IntToString(now);
      var ride := new Ride(id, scooter.id, scooter.position, scooter.position, targetPosition.value,
                           now, now + info.duration * 60 * 1000, 0.0, info.waypoints, true, false,
                           Some(scooter.batteryLevel));
      scooters := UpdateFirst(scooters, scooter.id, TakeIntoUse);
      AutomaticCountAppend(activeRides, ride);
      activeRides := activeRides + [ride];
      sim := new RideSimulation(ride);
      selectedScooter := None;
      targetPosition := None;
      routeInfo := None;
      rideId := Some(id);
    }

    /** `startAutomaticRide`: `probabilityDraw` and `indexDraw` are its two
        `Math.random()` values, `targetDraw` those of the random target, and
        `response` the routing engine's answer. */
    method StartAutomaticRide(probabilityDraw: real, indexDraw: real, targetDraw: MockData.PositionDraw,
                              response: Routing.RouteResponse, dist: (Point, Point) -> real, now: int)
      returns (sim: RideSimulation?)
      requires IsDraw(probabilityDraw) && IsDraw(indexDraw) && MockData.ValidPositionDraw(targetDraw)
      modifies this
      ensures !CanStartAutomaticRide(old(scooters), old(activeRides), probabilityDraw) ==>
        && sim == null && scooters == old(scooters) && activeRides == old(activeRides)
      ensures CanStartAutomaticRide(old(scooters), old(activeRides), probabilityDraw) ==>
        var i := PickCandidate(old(scooters), indexDraw);
        var scooter := old(scooters)[i];
        var target := MockData.GenerateRandomPosition(targetDraw);
        var route := Routing.CalculateRoute(response, scooter.position, target, dist);
        var duration := MockData.CalculateCost(route.distance, scooter.pricePerMinute, MockData.DefaultSpeed).duration;
        && sim != null && fresh(sim) && fresh(sim.ride) && sim.running && sim.lastDbUpdate == 0
        && StartedRide(sim.ride, "auto-ride-" + IntToString(now), scooter, target, route.waypoints, duration, now, true)
        && activeRides == old(activeRides) + [sim.ride]
        && scooters == old(scooters)[i := Apply(TakeIntoUse, scooter)]
        && |AutoRideCandidates(scooters)| >= MinAvailableScooters
        && AutoRidesWithinCap()
      ensures old(AutoRidesWithinCap()) ==> AutoRidesWithinCap()
      ensures Selection() == old(Selection())
      ensures isCalculatingRoute == old(isCalculatingRoute) && automaticRideInterval == old(automaticRideInterval)
    {
      if !CanStartAutomaticRide(scooters, activeRides, probabilityDraw) {
        return null;
      }
      var i := PickCandidate(scooters, indexDraw);
      var scooter := scooters[i];
      var target := MockData.GenerateRandomPosition(targetDraw);
      var route := Routing.CalculateRoute(response, scooter.position, target, dist);
      var cost := MockData.CalculateCost(route.distance, scooter.pricePerMinute, MockData.DefaultSpeed);
      var ride := new Ride("auto-ride-" + IntToString(now), scooter.id, scooter.position, scooter.position,
                           target, now, now + cost.duration * 60 * 1000, 0.0, route.waypoints, true, true,
                           Some(scooter.batteryLevel));
      CandidatesAfterTaking(scooters, i, Apply(TakeIntoUse, scooter));
      scooters := scooters[i := Apply(TakeIntoUse, scooter)];
      AutomaticCountAppend(activeRides, ride);
      activeRides := activeRides + [ride];
      sim := new RideSimulation(ride);
    }

    /** `initializeScooters` after the database reads: a stored fleet is
        taken over with its restorable rides; an empty store gets 25
        generated scooters and one seeded ride per in-use scooter. Every
        ride of the list gets its own simulation. */
    method InitializeScooters(existingScooters: seq<Scooter>, existingRides: seq<Ride>,
                              draws: nat -> MockData.ScooterDraw, seeds: nat -> MockData.RideSeed,
                              dist: (Point, Point) -> real)
      returns (sims: seq<RideSimulation>)
      requires forall i :: MockData.ValidScooterDraw(draws(i))
      requires forall k :: MockData.ValidRideSeed(seeds(k))
      requires Routing.NonNegative(dist)
      modifies this
      ensures existingScooters != [] ==>
        && scooters == existingScooters
        && activeRides == RestorableRides(existingScooters, existingRides)
      ensures existingScooters == [] ==>
        && GeneratedFleet(scooters, activeRides, draws, seeds, dist)
        && forall r | r in activeRides :: fresh(r) && r.isActive
      ensures Simulating(sims, activeRides)
      ensures Selection() == old(Selection())
      ensures isCalculatingRoute == old(isCalculatingRoute) && automaticRideInterval == old(automaticRideInterval)
    {
      var fleet, rides;
      if existingScooters != [] {
        fleet, rides := existingScooters, RestorableRides(existingScooters, existingRides);
      } else {
        fleet, rides := GenerateFleet(draws, seeds, dist);
      }
      sims := StartSimulations(rides);
      scooters, activeRides := fleet, rides;
    }

    /** The copy a tick writes over the first ride with id `id`. */
    method RefreshRide(id: string, progress: real, position: Point)
      modifies this
      ensures TickedRides(old(activeRides), activeRides, id, progress, position)
      ensures FindRide(activeRides, id) == FindRide(old(activeRides), id)
      ensures AutomaticCount(activeRides) == AutomaticCount(old(activeRides))
      ensures scooters == old(scooters) && Selection() == old(Selection())
      ensures isCalculatingRoute == old(isCalculatingRoute) && automaticRideInterval == old(automaticRideInterval)
    {
      var found := FindRide(activeRides, id);
      if found.Some? {
        var i := found.value;
        var copy := new Ride.CopyWith(activeRides[i], progress, position);
        RefreshKeepsLookup(activeRides, i, copy, id);
        AutomaticCountReplace(activeRides, i, copy);
        activeRides := activeRides[i := copy];
      }
    }

    /** `endRide`: ends the first ride with id `rideId`, in place on the
        object the ride list holds, releases its scooter at the ride's
        target and drops the ride from the list. */
    method EndRide(rideId: string, now: int)
      modifies this, activeRides
      ensures var i := FindRide(old(activeRides), rideId);
        && (i.None? ==> scooters == old(scooters) && activeRides == old(activeRides))
        && (i.Some? ==>
             var ride := old(activeRides)[i.value];
             && activeRides == old(activeRides)[..i.value] + old(activeRides)[i.value + 1..]
             && scooters == UpdateFirst(old(scooters), ride.scooterId, Release(ride.targetPosition, now)))
      ensures var i := FindRide(old(activeRides), rideId);
        forall r | r in old(activeRides) ::
          r.isActive == if i.Some? && r == old(activeRides)[i.value] then false else old(r.isActive)
      ensures old(AutoRidesWithinCap()) ==> AutoRidesWithinCap()
      ensures Selection() == old(Selection())
      ensures isCalculatingRoute == old(isCalculatingRoute) && automaticRideInterval == old(automaticRideInterval)
    {
      var found := FindRide(activeRides, rideId);
      if found.None? {
        return;
      }
      var i := found.value;
      var ride := activeRides[i];
      ride.isActive := false;
      scooters := UpdateFirst(scooters, ride.scooterId, Release(ride.targetPosition, now));
      AutomaticCountRemove(activeRides, i);
      activeRides := activeRides[..i] + activeRides[i + 1..];
    }
  }

  // ---------------------------------------------------------------------------
  // Ride simulation
  // ---------------------------------------------------------------------------

  /** One `simulateRide` interval: the ride object it captured, the trip
      length it computed at the start, its `lastDbUpdate` counter and
      whether the interval is still scheduled. */
  class RideSimulation {
    const ride: Ride
    const totalDuration: int
    var lastDbUpdate: int
    var running: bool

    constructor (ride: Ride)
      ensures this.ride == ride && totalDuration == ride.estimatedEndTime - ride.startTime
      ensures lastDbUpdate == 0 && running
    {
      this.ride := ride;
      totalDuration := ride.estimatedEndTime - ride.startTime;
      lastDbUpdate := 0;
      running := true;
    }

    /** The progress a tick at `now` computes. */
    function ProgressAt(now: int): real
      requires totalDuration != 0 || now - ride.startTime > 0
    {
      TickProgress(now - ride.startTime, totalDuration)
    }

    /** One firing of the interval at clock reading `now`. A tick whose
        captured ride is no longer active cancels the interval; otherwise it
        moves the ride along its route, refreshes the first list entry with
        the ride's id by a copy, moves the first scooter with the ride's
        scooter id, persists every 10 s, and ends the ride once the progress
        reaches 1. `moved` is the new position, `persisted` whether the
        database was written. */
    method Tick(store: FleetStore, now: int, dist: (Point, Point) -> real) returns (moved: Option<Point>, persisted: bool)
      requires running && Routing.NonNegative(dist)
      requires totalDuration != 0 || now - ride.startTime > 0
      modifies this, store, store.activeRides
      ensures !old(ride.isActive) ==>
        && !running && moved.None? && !persisted
        && store.scooters == old(store.scooters) && store.activeRides == old(store.activeRides)
      ensures old(ride.isActive) ==>
        && moved.Some? && Routing.IsInterpolation(ride.route, ProgressAt(now), dist, moved.value)
        && (running <==> ProgressAt(now) < 1.0)
        && (persisted <==> FindScooter(old(store.scooters), ride.scooterId).Some?
                           && now - ride.startTime - old(lastDbUpdate) >= DbUpdateInterval)
      ensures lastDbUpdate == if persisted then now - ride.startTime else old(lastDbUpdate)
      ensures old(ride.isActive) && ProgressAt(now) < 1.0 ==>
        && store.scooters == UpdateFirst(old(store.scooters), ride.scooterId, MoveTo(moved.value))
        && TickedRides(old(store.activeRides), store.activeRides, ride.id, ProgressAt(now), moved.value)
      ensures old(ride.isActive) && ProgressAt(now) >= 1.0 ==>
        var i := FindRide(old(store.activeRides), ride.id);
        var movedFleet := UpdateFirst(old(store.scooters), ride.scooterId, MoveTo(moved.value));
        && (i.None? ==> store.scooters == movedFleet && store.activeRides == old(store.activeRides))
        && (i.Some? ==>
             var entry := old(store.activeRides)[i.value];
             && store.activeRides == old(store.activeRides)[..i.value] + old(store.activeRides)[i.value + 1..]
             && store.scooters == UpdateFirst(movedFleet, entry.scooterId, Release(entry.targetPosition, now)))
      ensures forall r | r in old(store.activeRides) :: r.isActive == old(r.isActive)
      ensures old(store.AutoRidesWithinCap()) ==> store.AutoRidesWithinCap()
      ensures store.Selection() == old(store.Selection())
      ensures store.isCalculatingRoute == old(store.isCalculatingRoute)
      ensures store.automaticRideInterval == old(store.automaticRideInterval)
    {
      if !ride.isActive {
        running := false;
        return None, false;
      }
      var position;
      position, persisted := Advance(store, now, dist);
      moved := Some(position);
      if ProgressAt(now) >= 1.0 {
        Complete(store, now, old(store.activeRides));
      }
    }

    /** The end of a tick that reached progress 1: `endRide` on the ride's
        id, then the interval is cleared. `before` is the ride list as it
        was before this tick refreshed the ride's entry. */
    method Complete(store: FleetStore, now: int, ghost before: seq<Ride>)
      requires |store.activeRides| == |before|
      requires FindRide(store.activeRides, ride.id) == FindRide(before, ride.id)
      requires forall k | 0 <= k < |before| && FindRide(before, ride.id) != Some(k) :: store.activeRides[k] == before[k]
      requires FindRide(before, ride.id).Some? ==>
        var i := FindRide(before, ride.id).value;
        SameRide(store.activeRides[i], before[i]) && store.activeRides[i] !in before
      modifies this, store, store.activeRides
      ensures !running && lastDbUpdate == old(lastDbUpdate)
      ensures var i := FindRide(before, ride.id);
        && (i.None? ==> store.scooters == old(store.scooters) && store.activeRides == old(store.activeRides))
        && (i.Some? ==>
             && store.activeRides == before[..i.value] + before[i.value + 1..]
             && store.scooters == UpdateFirst(old(store.scooters), before[i.value].scooterId,
                                              Release(before[i.value].targetPosition, now)))
      ensures forall r | r in before :: r.isActive == old(r.isActive)
      ensures old(store.AutoRidesWithinCap()) ==> store.AutoRidesWithinCap()
      ensures store.Selection() == old(store.Selection())
      ensures store.isCalculatingRoute == old(store.isCalculatingRoute)
      ensures store.automaticRideInterval == old(store.automaticRideInterval)
    {
      ghost var i := FindRide(before, ride.id);
      if i.Some? {
        RemoveRefreshed(before, store.activeRides, i.value);
      }
      store.EndRide(ride.id, now);
      running := false;
    }

    /** The part of a tick that moves an active ride: the new position, the
        refreshed list entry, the moved scooter and the periodic write. */
    method Advance(store: FleetStore, now: int, dist: (Point, Point) -> real) returns (position: Point, persisted: bool)
      requires Routing.NonNegative(dist)
      requires totalDuration != 0 || now - ride.startTime > 0
      modifies this, store
      ensures Routing.IsInterpolation(ride.route, ProgressAt(now), dist, position)
      ensures persisted <==> FindScooter(old(store.scooters), ride.scooterId).Some?
                             && now - ride.startTime - old(lastDbUpdate) >= DbUpdateInterval
      ensures lastDbUpdate == if persisted then now - ride.startTime else old(lastDbUpdate)
      ensures running == old(running)
      ensures store.scooters == UpdateFirst(old(store.scooters), ride.scooterId, MoveTo(position))
      ensures TickedRides(old(store.activeRides), store.activeRides, ride.id, ProgressAt(now), position)
      ensures FindRide(store.activeRides, ride.id) == FindRide(old(store.activeRides), ride.id)
      ensures AutomaticCount(store.activeRides) == AutomaticCount(old(store.activeRides))
      ensures store.Selection() == old(store.Selection())
      ensures store.isCalculatingRoute == old(store.isCalculatingRoute)
      ensures store.automaticRideInterval == old(store.automaticRideInterval)
    {
      var elapsed := now - ride.startTime;
      var progress := TickProgress(elapsed, totalDuration);
      position := Routing.InterpolatePosition(ride.route, progress, dist);
      persisted := Record(store, elapsed, progress, position);
    }

    /** Writes a tick's progress and position into the store. */
    method Record(store: FleetStore, elapsed: int, progress: real, position: Point) returns (persisted: bool)
      modifies this, store
      ensures persisted <==> FindScooter(old(store.scooters), ride.scooterId).Some?
                             && elapsed - old(lastDbUpdate) >= DbUpdateInterval
      ensures lastDbUpdate == if persisted then elapsed else old(lastDbUpdate)
      ensures running == old(running)
      ensures store.scooters == UpdateFirst(old(store.scooters), ride.scooterId, MoveTo(position))
      ensures TickedRides(old(store.activeRides), store.activeRides, ride.id, progress, position)
      ensures FindRide(store.activeRides, ride.id) == FindRide(old(store.activeRides), ride.id)
      ensures AutomaticCount(store.activeRides) == AutomaticCount(old(store.activeRides))
      ensures store.Selection() == old(store.Selection())
      ensures store.isCalculatingRoute == old(store.isCalculatingRoute)
      ensures store.automaticRideInterval == old(store.automaticRideInterval)
    {
      store.RefreshRide(ride.id, progress, position);
      persisted := false;
      var scooterIndex := FindScooter(store.scooters, ride.scooterId);
      if scooterIndex.Some? {
        store.scooters := UpdateFirst(store.scooters, ride.scooterId, MoveTo(position));
        if elapsed - lastDbUpdate >= DbUpdateInterval {
          lastDbUpdate := elapsed;
          persisted := true;
        }
      }
    }
  }

  // ---------------------------------------------------------------------------
  // The captured ride and the list entry
  // ---------------------------------------------------------------------------

  /** A ride ended from outside before its first tick: `endRide` marks the
      very object the interval captured, so the next tick cancels the
      interval and changes nothing. */
  method EndedBeforeFirstTickStops(store: FleetStore, sim: RideSimulation, endTime: int, now: int,
                                   dist: (Point, Point) -> real)
    requires sim.running && sim.ride.isActive && Routing.NonNegative(dist)
    requires sim.totalDuration != 0 || now - sim.ride.startTime > 0
    requires var i := FindRide(store.activeRides, sim.ride.id); i.Some? && store.activeRides[i.value] == sim.ride
    modifies store, store.activeRides, sim
    ensures !sim.running && !sim.ride.isActive
    ensures FindScooter(store.scooters, sim.ride.scooterId).Some? ==>
      var j := FindScooter(store.scooters, sim.ride.scooterId).value;
      && store.scooters[j].isAvailable && !store.scooters[j].isInUse
      && store.scooters[j].position == sim.ride.targetPosition
  {
    ghost var fleet := store.scooters;
    ghost var release := Release(sim.ride.targetPosition, endTime);
    store.EndRide(sim.ride.id, endTime);
    assert !sim.ride.isActive;
    assert store.scooters == UpdateFirst(fleet, sim.ride.scooterId, release);
    UpdateKeepsLookup(fleet, sim.ride.scooterId, release, sim.ride.scooterId);
    ghost var released := store.scooters;
    var moved, persisted := sim.Tick(store, now, dist);
    assert store.scooters == released;
  }

  /** A ride ended from outside after its first tick: the tick has put a
      copy in the list, `endRide` marks and removes the copy, and the object
      the interval captured stays active. The next tick still runs and moves
      the scooter that `endRide` released, which stays available and not in
      use while it travels along the old route. */
  method EndedAfterFirstTickKeepsMoving(store: FleetStore, sim: RideSimulation, first: int, endTime: int, next: int,
                                        dist: (Point, Point) -> real)
    requires sim.running && sim.ride.isActive && Routing.NonNegative(dist)
    requires sim.totalDuration > 0
    requires 0 < first - sim.ride.startTime < sim.totalDuration
    requires 0 < next - sim.ride.startTime < sim.totalDuration
    requires var i := FindRide(store.activeRides, sim.ride.id); i.Some? && store.activeRides[i.value] == sim.ride
    requires FindScooter(store.scooters, sim.ride.scooterId).Some?
    modifies store, store.activeRides, sim
    ensures sim.running && sim.ride.isActive
    ensures var j := FindScooter(store.scooters, sim.ride.scooterId);
      && j.Some?
      && store.scooters[j.value].isAvailable && !store.scooters[j.value].isInUse
      && Routing.IsInterpolation(sim.ride.route, sim.ProgressAt(next), dist, store.scooters[j.value].position)
  {
    FirstTickCopies(store, sim, first, dist);
    EndReleasesScooter(store, sim, endTime);
    ghost var scooterId := sim.ride.scooterId;
    ghost var fleet := store.scooters;

    // The captured ride is still active, so the next tick moves the scooter.
    var moved, persisted := sim.Tick(store, next, dist);
    assert sim.ProgressAt(next) < 1.0;
    assert store.scooters == UpdateFirst(fleet, scooterId, MoveTo(moved.value));
    UpdateKeepsLookup(fleet, scooterId, MoveTo(moved.value), scooterId);
  }

  /** The first tick of a ride whose list entry is the captured object
      itself: the entry is replaced by a fresh copy that carries the same
      ride, and the simulation keeps running. */
  method FirstTickCopies(store: FleetStore, sim: RideSimulation, first: int, dist: (Point, Point) -> real)
    requires sim.running && sim.ride.isActive && Routing.NonNegative(dist)
    requires sim.totalDuration > 0
    requires 0 < first - sim.ride.startTime < sim.totalDuration
    requires var i := FindRide(store.activeRides, sim.ride.id); i.Some? && store.activeRides[i.value] == sim.ride
    requires FindScooter(store.scooters, sim.ride.scooterId).Some?
    modifies store, store.activeRides, sim
    ensures sim.running && sim.ride.isActive
    ensures FindScooter(store.scooters, sim.ride.scooterId).Some?
    ensures var i := FindRide(old(store.activeRides), sim.ride.id).value;
      && FindRide(store.activeRides, sim.ride.id) == Some(i)
      && store.activeRides == old(store.activeRides)[i := store.activeRides[i]]
      && fresh(store.activeRides[i]) && store.activeRides[i].scooterId == sim.ride.scooterId
    ensures forall r | r in store.activeRides :: r in old(store.activeRides) || fresh(r)
    ensures forall k | 0 <= k < |store.activeRides| ::
      store.activeRides[k] in old(store.activeRides) || fresh(store.activeRides[k])
  {
    ghost var id, scooterId := sim.ride.id, sim.ride.scooterId;
    ghost var list0, fleet0 := store.activeRides, store.scooters;
    ghost var i := FindRide(list0, id).value;
    var moved, persisted := sim.Tick(store, first, dist);
    assert sim.ProgressAt(first) < 1.0;
    assert store.activeRides == list0[i := store.activeRides[i]];
    RefreshKeepsLookup(list0, i, store.activeRides[i], id);
    UpdateKeepsLookup(fleet0, scooterId, MoveTo(moved.value), scooterId);
  }

  /** `endRide` on a list whose entry for the ride is a copy: the copy is
      marked and removed and the scooter released, while the captured ride
      stays active. */
  method EndReleasesScooter(store: FleetStore, sim: RideSimulation, endTime: int)
    requires sim.ride.isActive
    requires FindScooter(store.scooters, sim.ride.scooterId).Some?
    requires var i := FindRide(store.activeRides, sim.ride.id);
      i.Some? && store.activeRides[i.value] != sim.ride && store.activeRides[i.value].scooterId == sim.ride.scooterId
    modifies store, store.activeRides
    ensures sim.ride.isActive
    ensures var j := FindScooter(store.scooters, sim.ride.scooterId);
      j.Some? && store.scooters[j.value].isAvailable && !store.scooters[j.value].isInUse
    ensures forall k | 0 <= k < |store.activeRides| :: store.activeRides[k] in old(store.activeRides)
  {
    ghost var list0, fleet0 := store.activeRides, store.scooters;
    ghost var i := FindRide(list0, sim.ride.id).value;
    ghost var copy := list0[i];
    store.EndRide(sim.ride.id, endTime);
    assert store.scooters == UpdateFirst(fleet0, sim.ride.scooterId, Release(copy.targetPosition, endTime));
    UpdateKeepsLookup(fleet0, sim.ride.scooterId, Release(copy.targetPosition, endTime), sim.ride.scooterId);
    forall k | 0 <= k < |store.activeRides|
      ensures store.activeRides[k] in list0
    {
      assert store.activeRides[k] == if k < i then list0[k] else list0[k + 1];
    }
  }

  /** Dropping entry `i` from a list that differs from `before` at most
      there gives the same list as dropping it from `before`. */
  lemma RemoveRefreshed(before: seq<Ride>, after: seq<Ride>, i: nat)
    requires i < |before| == |after|
    requires forall k | 0 <= k < |after| && k != i :: after[k] == before[k]
    ensures after[..i] + after[i + 1..] == before[..i] + before[i + 1..]
  {
    assert after[..i] == before[..i];
    assert after[i + 1..] == before[i + 1..];
  }

  /** `after` is `before` with the first entry carrying `id` replaced by a
      fresh copy at `progress` and `position`; no other entry changes. */
  twostate predicate TickedRides(before: seq<Ride>, new after: seq<Ride>, id: string, progress: real, position: Point)
    reads after, before
  {
    && |after| == |before|
    && (FindRide(before, id).None? ==> after == before)
    && (forall k | 0 <= k < |after| && FindRide(before, id) != Some(k) :: after[k] == before[k])
    && (FindRide(before, id).Some? ==>
         var i := FindRide(before, id).value;
         fresh(after[i]) && Refreshed(after[i], before[i], progress, position))
  }

  /** Refreshing an entry by a copy with the same id keeps every lookup. */
  lemma RefreshKeepsLookup(rides: seq<Ride>, i: nat, copy: Ride, id: string)
    requires i < |rides| && copy.id == rides[i].id
    ensures FindRide(rides[i := copy], id) == FindRide(rides, id)
  {
    FindRideByIds(rides[i := copy], rides, id);
  }
}
