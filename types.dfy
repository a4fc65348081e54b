/** The records of `src/types/scooter.ts`. A scooter is a value: the store
    replaces or updates it by id. A ride is an object: the simulation timer
    keeps a reference to the ride it was started with, and only `isActive`
    is ever written in place, so every other field is a constant. */
module ScooterTypes {
  import opened Basics

  /** A rentable scooter. Times are milliseconds since the epoch. */
  datatype Scooter = Scooter(
    id: string,
    position: Point,
    batteryLevel: int,
    isAvailable: bool,
    isInUse: bool,
    pricePerMinute: real,
    model: string,
    lastUsed: Option<int>)

  /** The preview of a planned trip: metres, minutes, euros and the path. */
  datatype RouteInfo = RouteInfo(distance: real, duration: int, cost: real, waypoints: seq<Point>)

  /** A ride (`ScooterRide`). */
  class Ride {
    const id: string
    const scooterId: string
    const startPosition: Point
    const currentPosition: Point
    const targetPosition: Point
    const startTime: int
    const estimatedEndTime: int
    const progress: real
    const route: seq<Point>
    var isActive: bool
    const isAutomatic: bool
    const initialBatteryLevel: Option<int>

    constructor (id: string, scooterId: string, startPosition: Point, currentPosition: Point,
                 targetPosition: Point, startTime: int, estimatedEndTime: int, progress: real,
                 route: seq<Point>, isActive: bool, isAutomatic: bool, initialBatteryLevel: Option<int>)
      ensures this.id == id && this.scooterId == scooterId
      ensures this.startPosition == startPosition && this.currentPosition == currentPosition
      ensures this.targetPosition == targetPosition
      ensures this.startTime == startTime && this.estimatedEndTime == estimatedEndTime
      ensures this.progress == progress && this.route == route
      ensures this.isActive == isActive && this.isAutomatic == isAutomatic
      ensures this.initialBatteryLevel == initialBatteryLevel
    {
      this.id := id;
      this.scooterId := scooterId;
      this.startPosition := startPosition;
      this.currentPosition := currentPosition;
      this.targetPosition := targetPosition;
      this.startTime := startTime;
      this.estimatedEndTime := estimatedEndTime;
      this.progress := progress;
      this.route := route;
      this.isActive := isActive;
      this.isAutomatic := isAutomatic;
      this.initialBatteryLevel := initialBatteryLevel;
    }

    /** `{ ...ride, progress, currentPosition }`: a new object with the other
        fields, `isActive` included, copied from `ride`. */
    constructor CopyWith(ride: Ride, progress: real, currentPosition: Point)
      ensures SameRide(this, ride) && this.isActive == ride.isActive
      ensures this.progress == progress && this.currentPosition == currentPosition
    {
      this.id := ride.id;
      this.scooterId := ride.scooterId;
      this.startPosition := ride.startPosition;
      this.currentPosition := currentPosition;
      this.targetPosition := ride.targetPosition;
      this.startTime := ride.startTime;
      this.estimatedEndTime := ride.estimatedEndTime;
      this.progress := progress;
      this.route := ride.route;
      this.isActive := ride.isActive;
      this.isAutomatic := ride.isAutomatic;
      this.initialBatteryLevel := ride.initialBatteryLevel;
    }
  }

  /** The positions, in fleet order, of the scooters `keep` selects: the
      array `filter` of the source, kept as indices so that the entries can
      be updated in place. */
  function IndicesWhere(s: seq<Scooter>, keep: Scooter -> bool): (r: seq<nat>)
    ensures |r| <= |s|
    ensures forall k | 0 <= k < |r| :: r[k] < |s| && keep(s[r[k]])
    ensures forall j, k | 0 <= j < k < |r| :: r[j] < r[k]
  {
    if s == [] then []
    else
      var r := IndicesWhere(s[..|s| - 1], keep);
      if keep(s[|s| - 1]) then r + [|s| - 1] else r
  }

  /** No selected position is missed. */
  lemma {:induction false} IndicesWhereComplete(s: seq<Scooter>, keep: Scooter -> bool, i: nat)
    requires i < |s| && keep(s[i])
    ensures i in IndicesWhere(s, keep)
  {
    var n := |s|;
    var r := IndicesWhere(s[..n - 1], keep);
    if i < n - 1 {
      assert s[..n - 1][i] == s[i];
      IndicesWhereComplete(s[..n - 1], keep, i);
      assert i in r;
    } else {
      assert IndicesWhere(s, keep) == r + [n - 1];
    }
  }

  /** The scooters `keep` selects, in fleet order. */
  function Select(s: seq<Scooter>, keep: Scooter -> bool): (r: seq<Scooter>)
    ensures |r| == |IndicesWhere(s, keep)|
    ensures forall k | 0 <= k < |r| :: r[k] == s[IndicesWhere(s, keep)[k]]
    ensures forall x | x in r :: x in s && keep(x)
    ensures forall x | x in s && keep(x) :: x in r
  {
    var idx := IndicesWhere(s, keep);
    var r := seq(|idx|, k requires 0 <= k < |idx| => s[idx[k]]);
    assert forall x | x in s && keep(x) :: x in r by {
      forall x | x in s && keep(x) ensures x in r {
        var i :| 0 <= i < |s| && s[i] == x;
        IndicesWhereComplete(s, keep, i);
        var k :| 0 <= k < |idx| && idx[k] == i;
        assert r[k] == x;
      }
    }
    r
  }

  /** Two ride objects agree on everything a simulation tick does not rewrite. */
  predicate SameRide(a: Ride, b: Ride) {
    && a.id == b.id && a.scooterId == b.scooterId
    && a.startPosition == b.startPosition && a.targetPosition == b.targetPosition
    && a.startTime == b.startTime && a.estimatedEndTime == b.estimatedEndTime
    && a.route == b.route && a.isAutomatic == b.isAutomatic
    && a.initialBatteryLevel == b.initialBatteryLevel
  }
}
