/** The routing service of `src/utils/routing.ts`: turning a routing-engine
    answer into a route (with the straight-line fallback), walking a route to
    the point a given fraction of its length along, and the retry loop that
    looks for an accessible random position.

    The network is not modelled: each request's outcome is an input, as a
    `RouteResponse`. The great-circle distance is a parameter `dist`, of
    which only non-negativity is assumed where a proof needs it. */
module Routing {
  import opened Basics
  import Polyline

  // ---------------------------------------------------------------------------
  // The routing engine's answer
  // ---------------------------------------------------------------------------

  /** A turn instruction; `beginShapeIndex` is `None` when the field is absent. */
  datatype Maneuver = Maneuver(beginShapeIndex: Option<int>, lat: real, lon: real)

  /** Leg length in kilometres and travel time in seconds. */
  datatype LegSummary = LegSummary(length: real, time: real)

  /** One leg of the trip. An absent or empty `shape` string is the empty sequence. */
  datatype Leg = Leg(shape: seq<Polyline.CharCode>, maneuvers: Option<seq<Maneuver>>, summary: Option<LegSummary>)

  /** What a request to the routing engine came back with: the request or the
      JSON parsing threw, the HTTP status was not ok, or a parsed body whose
      `trip.legs` is `None` when `trip` or `legs` is missing. */
  datatype RouteResponse = RequestFailed | HttpError(status: int) | Answer(legs: Option<seq<Leg>>)

  /** A route: waypoints, metres and seconds. */
  datatype CalculatedRoute = CalculatedRoute(waypoints: seq<Point>, distance: real, duration: real)

  /** The speed, in km/h, assumed for a straight-line route. */
  const DirectRouteSpeed: real := 15.0

  /** The box around Hamburg north of the Elbe that every waypoint must lie in. */
  predicate InServiceArea(p: Point) {
    53.5 <= p.lat <= 53.7 && 9.8 <= p.lng <= 10.2
  }

  /** The position of every maneuver that carries a begin shape index, in order. */
  function ManeuverPoints(ms: seq<Maneuver>): (ps: seq<Point>)
    ensures |ps| <= |ms|
    ensures forall m | m in ms && m.beginShapeIndex.Some? :: Point(m.lat, m.lon) in ps
    ensures forall p | p in ps :: exists m | m in ms && m.beginShapeIndex.Some? :: p == Point(m.lat, m.lon)
    ensures (forall m | m in ms :: m.beginShapeIndex.None?) ==> ps == []
  {
    if ms == [] then []
    else
      var rest := ManeuverPoints(ms[1..]);
      assert forall m | m in ms[1..] :: m in ms;
      if ms[0].beginShapeIndex.Some? then [Point(ms[0].lat, ms[0].lon)] + rest else rest
  }

  /** The points of consecutive runs of maneuvers follow each other in order. */
  lemma {:induction false} ManeuverPointsAppend(a: seq<Maneuver>, b: seq<Maneuver>)
    ensures ManeuverPoints(a + b) == ManeuverPoints(a) + ManeuverPoints(b)
  {
    if a == [] {
      assert a + b == b;
    } else {
      assert (a + b)[1..] == a[1..] + b;
      ManeuverPointsAppend(a[1..], b);
    }
  }

  /** The waypoints read off a leg before validation: the decoded shape when
      there is one, else the maneuver positions, else the two end points. */
  function CandidateWaypoints(leg: Leg, start: Point, end: Point): (ws: seq<Point>)
    ensures |ws| >= 1
    ensures leg.shape != [] ==> ws == Polyline.DecodeCoordinates(leg.shape, 0)
    ensures leg.shape == [] && leg.maneuvers.Some? && ManeuverPoints(leg.maneuvers.value) != [] ==>
      ws == ManeuverPoints(leg.maneuvers.value)
    ensures leg.shape == [] && (leg.maneuvers.None? || ManeuverPoints(leg.maneuvers.value) == []) ==>
      ws == [start, end]
  {
    var extracted :=
      if leg.shape != [] then Polyline.DecodeCoordinates(leg.shape, 0)
      else if leg.maneuvers.Some? then ManeuverPoints(leg.maneuvers.value)
      else [];
    if extracted == [] then [start, end] else extracted
  }

  /** The waypoints inside the service area, in their original order. */
  function KeepInServiceArea(ps: seq<Point>): (r: seq<Point>)
    ensures |r| <= |ps|
    ensures forall p :: p in r <==> p in ps && InServiceArea(p)
  {
    if ps == [] then []
    else if InServiceArea(ps[0]) then [ps[0]] + KeepInServiceArea(ps[1..])
    else KeepInServiceArea(ps[1..])
  }

  /** Filtering a concatenation filters each part: the filter keeps order. */
  lemma {:induction false} KeepAppend(a: seq<Point>, b: seq<Point>)
    ensures KeepInServiceArea(a + b) == KeepInServiceArea(a) + KeepInServiceArea(b)
  {
    if a != [] {
      assert (a + b)[0] == a[0];
      assert (a + b)[1..] == a[1..] + b;
      KeepAppend(a[1..], b);
    } else {
      assert a + b == b;
    }
  }

  /** Filtering an already filtered route changes nothing. */
  lemma {:induction false} KeepIdempotent(ps: seq<Point>)
    ensures KeepInServiceArea(KeepInServiceArea(ps)) == KeepInServiceArea(ps)
  {
    if ps != [] {
      KeepIdempotent(ps[1..]);
    }
  }

  /** The route the answer describes, or `None` wherever the source throws and
      falls back: a failed request, no legs, no waypoint inside the service
      area, or a leg without a summary. */
  function RouteFromResponse(response: RouteResponse, start: Point, end: Point): (r: Option<CalculatedRoute>)
    ensures r.Some? ==> response.Answer? && response.legs.Some? && |response.legs.value| > 0
    ensures r.Some? ==>
      var leg := response.legs.value[0];
      && leg.summary.Some?
      && r.value.waypoints == KeepInServiceArea(CandidateWaypoints(leg, start, end))
      && r.value.distance == leg.summary.value.length * 1000.0
      && r.value.duration == leg.summary.value.time
    ensures (&& response.Answer? && response.legs.Some? && |response.legs.value| > 0
             && response.legs.value[0].summary.Some?
             && KeepInServiceArea(CandidateWaypoints(response.legs.value[0], start, end)) != [])
            ==> r.Some?
  {
    match response
    case RequestFailed => None
    case HttpError(_) => None
    case Answer(legs) =>
      if legs.None? || |legs.value| == 0 then None
      else
        var leg := legs.value[0];
        var valid := KeepInServiceArea(CandidateWaypoints(leg, start, end));
        if valid == [] || leg.summary.None? then None
        else Some(CalculatedRoute(valid, leg.summary.value.length * 1000.0, leg.summary.value.time))
  }

  /** The straight line from `start` to `end`, timed at 15 km/h. */
  function CreateDirectRoute(start: Point, end: Point, dist: (Point, Point) -> real): (r: CalculatedRoute)
    ensures r.waypoints == [start, end]
    ensures r.distance == dist(start, end)
    ensures r.duration * (DirectRouteSpeed * 1000.0 / 3600.0) == r.distance
  {
    var distance := dist(start, end);
    CalculatedRoute([start, end], distance, distance / 1000.0 / DirectRouteSpeed * 3600.0)
  }

  /** `calculateRoute`: the engine's route when it yields one, else the straight line. */
  function CalculateRoute(response: RouteResponse, start: Point, end: Point, dist: (Point, Point) -> real): (r: CalculatedRoute)
    ensures RouteFromResponse(response, start, end).Some? ==> r == RouteFromResponse(response, start, end).value
    ensures RouteFromResponse(response, start, end).None? ==> r == CreateDirectRoute(start, end, dist)
  {
    match RouteFromResponse(response, start, end)
    case Some(route) => route
    case None => CreateDirectRoute(start, end, dist)
  }

  /** Every route has a waypoint, and either all of its waypoints lie in the
      service area or it is the straight line between the requested points. */
  lemma CalculatedRouteShape(response: RouteResponse, start: Point, end: Point, dist: (Point, Point) -> real)
    ensures var r := CalculateRoute(response, start, end, dist);
      && |r.waypoints| >= 1
      && ((forall p | p in r.waypoints :: InServiceArea(p)) || r == CreateDirectRoute(start, end, dist))
  {
    var r := CalculateRoute(response, start, end, dist);
    if RouteFromResponse(response, start, end).Some? {
      assert r.waypoints != [];
    }
  }

  /** A non-empty shape always yields at least one decoded point, so the
      two-point fallback inside a leg is reached only through the maneuvers. */
  lemma ShapeNeverFallsBack(leg: Leg, start: Point, end: Point)
    requires leg.shape != []
    ensures |CandidateWaypoints(leg, start, end)| == |Polyline.Deltas(leg.shape)| >= 1
  {
  }

  // ---------------------------------------------------------------------------
  // Interpolation along a route
  // ---------------------------------------------------------------------------

  /** A leg of the route between consecutive waypoints. */
  datatype Segment = Segment(start: Point, end: Point, distance: real)

  /** The length of the first `n` segments of `ws`. */
  function PathLength(ws: seq<Point>, n: nat, dist: (Point, Point) -> real): real
    requires n < |ws|
  {
    if n == 0 then 0.0 else PathLength(ws, n - 1, dist) + dist(ws[n - 1], ws[n])
  }

  /** The point a fraction `t` of the way from `a` to `b`. */
  function Lerp(a: Point, b: Point, t: real): Point {
    Point(a.lat + (b.lat - a.lat) * t, a.lng + (b.lng - a.lng) * t)
  }

  ghost predicate NonNegative(dist: (Point, Point) -> real) {
    forall a, b :: dist(a, b) >= 0.0
  }

  /** The point a fraction `t` along segment `i` of `ws`. */
  function PointAlong(ws: seq<Point>, i: nat, t: real): Point
    requires i < |ws| - 1
  {
    Lerp(ws[i], ws[i + 1], t)
  }

  /** `p` is where segment `i` reaches `target` metres from the start of the
      route, and segment `i` is the first segment that reaches that far. */
  ghost predicate OnSegmentAt(ws: seq<Point>, i: int, target: real, dist: (Point, Point) -> real, p: Point) {
    && 0 <= i < |ws| - 1
    && PathLength(ws, i, dist) < target <= PathLength(ws, i + 1, dist)
    && p == PointAlong(ws, i, (target - PathLength(ws, i, dist)) / dist(ws[i], ws[i + 1]))
  }

  /** Some segment is the first to reach `target`, and `p` is where it does. */
  ghost predicate ReachedAt(ws: seq<Point>, target: real, dist: (Point, Point) -> real, p: Point) {
    exists i :: OnSegmentAt(ws, i, target, dist, p)
  }

  /** How far along the route `progress` points. */
  function TargetDistance(ws: seq<Point>, progress: real, dist: (Point, Point) -> real): real
    requires |ws| >= 1
  {
    PathLength(ws, |ws| - 1, dist) * progress
  }

  /** The position `interpolatePosition` promises for a route and a progress. */
  ghost predicate IsInterpolation(ws: seq<Point>, progress: real, dist: (Point, Point) -> real, p: Point) {
    if |ws| == 0 then p == Point(0.0, 0.0)
    else if |ws| == 1 || progress <= 0.0 then p == ws[0]
    else if progress >= 1.0 then p == ws[|ws| - 1]
    else
      if PathLength(ws, |ws| - 1, dist) == 0.0 then p == ws[0]
      else ReachedAt(ws, TargetDistance(ws, progress, dist), dist, p)
  }

  lemma {:induction false} PathLengthMonotone(ws: seq<Point>, i: nat, j: nat, dist: (Point, Point) -> real)
    requires NonNegative(dist) && i <= j < |ws|
    ensures 0.0 <= PathLength(ws, i, dist) <= PathLength(ws, j, dist)
    decreases j
  {
    if j > 0 {
      PathLengthMonotone(ws, if i < j then i else j - 1, j - 1, dist);
      assert dist(ws[j - 1], ws[j]) >= 0.0;
    }
  }

  lemma FractionAtMostOne(a: real, d: real)
    requires 0.0 < a <= d
    ensures 0.0 < a / d <= 1.0
  {
    assert a / d * d == a;
  }

  lemma FractionOfPositive(total: real, fraction: real)
    requires 0.0 < total && 0.0 < fraction < 1.0
    ensures 0.0 < total * fraction < total
  {
    assert total * (1.0 - fraction) > 0.0;
  }

  /** A progress strictly between 0 and 1 on a route of positive length
      points strictly inside the route. */
  lemma TargetInside(ws: seq<Point>, progress: real, dist: (Point, Point) -> real)
    requires |ws| >= 1 && 0.0 < PathLength(ws, |ws| - 1, dist) && 0.0 < progress < 1.0
    ensures 0.0 < PathLength(ws, |ws| - 1, dist) * progress < PathLength(ws, |ws| - 1, dist)
  {
    FractionOfPositive(PathLength(ws, |ws| - 1, dist), progress);
  }

  /** At most one position satisfies the interpolation contract. */
  lemma InterpolationUnique(ws: seq<Point>, progress: real, dist: (Point, Point) -> real, p: Point, q: Point)
    requires NonNegative(dist)
    requires IsInterpolation(ws, progress, dist, p) && IsInterpolation(ws, progress, dist, q)
    ensures p == q
  {
    if |ws| >= 2 && 0.0 < progress < 1.0 && PathLength(ws, |ws| - 1, dist) != 0.0 {
      var target := TargetDistance(ws, progress, dist);
      var i :| OnSegmentAt(ws, i, target, dist, p);
      var j :| OnSegmentAt(ws, j, target, dist, q);
      if i < j {
        PathLengthMonotone(ws, i + 1, j, dist);
      } else if j < i {
        PathLengthMonotone(ws, j + 1, i, dist);
      }
    }
  }

  /** The interpolated position lies on a segment of the route, strictly past
      its start and no further than its end. */
  lemma InterpolationOnRoute(ws: seq<Point>, progress: real, dist: (Point, Point) -> real, p: Point)
    requires NonNegative(dist) && IsInterpolation(ws, progress, dist, p)
    requires |ws| >= 2 && 0.0 < progress < 1.0 && PathLength(ws, |ws| - 1, dist) != 0.0
    ensures exists i: nat, t :: i < |ws| - 1 && 0.0 < t <= 1.0 && p == PointAlong(ws, i, t)
  {
    var target := TargetDistance(ws, progress, dist);
    var i :| OnSegmentAt(ws, i, target, dist, p);
    var a := target - PathLength(ws, i, dist);
    var d := dist(ws[i], ws[i + 1]);
    FractionAtMostOne(a, d);
  }

  /** The segments of a route and its total length: the first loop of
      `interpolatePosition`. */
  method MeasureSegments(waypoints: seq<Point>, dist: (Point, Point) -> real)
    returns (segments: seq<Segment>, totalDistance: real)
    requires |waypoints| >= 1
    ensures |segments| == |waypoints| - 1
    ensures forall j | 0 <= j < |segments| ::
      segments[j] == Segment(waypoints[j], waypoints[j + 1], dist(waypoints[j], waypoints[j + 1]))
    ensures totalDistance == PathLength(waypoints, |waypoints| - 1, dist)
  {
    totalDistance := 0.0;
    segments := [];
    var i := 0;
    while i < |waypoints| - 1
      invariant 0 <= i <= |waypoints| - 1 && |segments| == i
      invariant forall j | 0 <= j < i ::
        segments[j] == Segment(waypoints[j], waypoints[j + 1], dist(waypoints[j], waypoints[j + 1]))
      invariant totalDistance == PathLength(waypoints, i, dist)
    {
      var distance := dist(waypoints[i], waypoints[i + 1]);
      segments := segments + [Segment(waypoints[i], waypoints[i + 1], distance)];
      totalDistance := totalDistance + distance;
      i := i + 1;
    }
  }

  /** The scan for the first segment that reaches `targetDistance`: the
      second loop of `interpolatePosition`. */
  method LocateOnRoute(waypoints: seq<Point>, segments: seq<Segment>, targetDistance: real, dist: (Point, Point) -> real)
    returns (p: Point)
    requires |segments| == |waypoints| - 1
    requires forall j | 0 <= j < |segments| ::
      segments[j] == Segment(waypoints[j], waypoints[j + 1], dist(waypoints[j], waypoints[j + 1]))
    requires 0.0 < targetDistance < PathLength(waypoints, |waypoints| - 1, dist)
    ensures ReachedAt(waypoints, targetDistance, dist, p)
  {
    var accumulated := 0.0;
    var k := 0;
    while k < |segments|
      invariant 0 <= k <= |segments|
      invariant accumulated == PathLength(waypoints, k, dist) < targetDistance
    {
      var segment := segments[k];
      if accumulated + segment.distance >= targetDistance {
        var segmentProgress := (targetDistance - accumulated) / segment.distance;
        p := Lerp(segment.start, segment.end, segmentProgress);
        assert OnSegmentAt(waypoints, k, targetDistance, dist, p);
        return;
      }
      accumulated := accumulated + segment.distance;
      k := k + 1;
    }
    // Here `accumulated` is the whole length, which exceeds the target:
    // with exact arithmetic the scan always stops inside the route.
    assert false;
  }

  /** `interpolatePosition`: the point `progress` of the way along the route,
      measured by `dist`. */
  method InterpolatePosition(waypoints: seq<Point>, progress: real, dist: (Point, Point) -> real) returns (p: Point)
    requires NonNegative(dist)
    ensures IsInterpolation(waypoints, progress, dist, p)
  {
    if |waypoints| < 2 {
      if |waypoints| == 0 {
        return Point(0.0, 0.0);
      }
      return waypoints[0];
    }
    if progress <= 0.0 {
      return waypoints[0];
    }
    if progress >= 1.0 {
      return waypoints[|waypoints| - 1];
    }
    var segments, totalDistance := MeasureSegments(waypoints, dist);
    if totalDistance == 0.0 {
      return waypoints[0];
    }
    PathLengthMonotone(waypoints, 0, |waypoints| - 1, dist);
    TargetInside(waypoints, progress, dist);
    var target := TargetDistance(waypoints, progress, dist);
    assert target == PathLength(waypoints, |waypoints| - 1, dist) * progress;
    p := LocateOnRoute(waypoints, segments, target, dist);
  }

  // ---------------------------------------------------------------------------
  // Accessible random positions
  // ---------------------------------------------------------------------------

  /** A latitude/longitude box. */
  datatype Bounds = Bounds(north: real, south: real, east: real, west: real)

  /** `isPositionAccessible`: the engine could route a short hop from the position. */
  predicate IsPositionAccessible(response: RouteResponse) {
    response.Answer? && response.legs.Some? && |response.legs.value| > 0
  }

  /** The position two uniform draws select in a box. */
  function SamplePosition(bounds: Bounds, draw: (real, real)): Point {
    Point(Between(bounds.south, bounds.north, draw.0), Between(bounds.west, bounds.east, draw.1))
  }

  /** `lo + Math.random() * (hi - lo)`. */
  function Between(lo: real, hi: real, r: real): real {
    lo + r * (hi - lo)
  }

  lemma ProductNonNegative(x: real, y: real)
    requires 0.0 <= x && 0.0 <= y
    ensures 0.0 <= x * y
  {
  }

  lemma DrawBetween(lo: real, hi: real, r: real)
    requires lo <= hi && IsDraw(r)
    ensures lo <= Between(lo, hi, r) <= hi
  {
    var d := hi - lo;
    ProductNonNegative(1.0 - r, d);
    ProductNonNegative(r, d);
    assert r * d == d - (1.0 - r) * d;
    assert Between(lo, hi, r) == lo + r * d;
  }

  /** A sampled position lies in its box. */
  lemma SampleInBounds(bounds: Bounds, draw: (real, real))
    requires bounds.south <= bounds.north && bounds.west <= bounds.east
    requires IsDraw(draw.0) && IsDraw(draw.1)
    ensures var p := SamplePosition(bounds, draw);
      bounds.south <= p.lat <= bounds.north && bounds.west <= p.lng <= bounds.east
  {
    DrawBetween(bounds.south, bounds.north, draw.0);
    DrawBetween(bounds.west, bounds.east, draw.1);
  }

  /** `generateValidPosition`: attempt `k` samples `draws(k)` and asks the
      engine, which answers `answers(k)`; the first accessible sample wins.
      `attempts` is the number of positions checked. */
  method GenerateValidPosition(bounds: Bounds, maxAttempts: int, draws: nat -> (real, real), answers: nat -> RouteResponse)
    returns (position: Option<Point>, attempts: nat)
    ensures attempts <= MaxInt(maxAttempts, 0)
    ensures forall k | 0 <= k < attempts - 1 :: !IsPositionAccessible(answers(k))
    ensures position.Some? ==>
      && attempts >= 1
      && IsPositionAccessible(answers(attempts - 1))
      && position.value == SamplePosition(bounds, draws(attempts - 1))
    ensures position.None? ==>
      && attempts == MaxInt(maxAttempts, 0)
      && forall k | 0 <= k < attempts :: !IsPositionAccessible(answers(k))
  {
    attempts := 0;
    while attempts < maxAttempts
      invariant attempts <= MaxInt(maxAttempts, 0)
      invariant forall k | 0 <= k < attempts :: !IsPositionAccessible(answers(k))
      decreases maxAttempts - attempts
    {
      var candidate := SamplePosition(bounds, draws(attempts));
      var isAccessible := IsPositionAccessible(answers(attempts));
      attempts := attempts + 1;
      if isAccessible {
        return Some(candidate), attempts;
      }
    }
    return None, attempts;
  }
}
