/** In-process geofence conflict detection: which route segments touch or enter which no-fly zones. */
module ConflictDetection {
  import opened Geometry
  import opened EvenOdd
  import opened SharedTypes

  datatype ConflictZone = ConflictZone(id: string, polygon: Ring)

  datatype Conflict = Conflict(segmentIndex: nat, zoneId: string)

  function WaypointToPoint(waypoint: Waypoint): Point {
    Point(waypoint.lon, waypoint.lat)
  }

  method SegmentIntersectsPolygon(segment: Segment, ring: Ring) returns (hit: bool)
    ensures hit <==> !Misses(segment.start, segment.end, ring)
  {
    var n := |ring|;
    var i := 0;
    while i < n - 1
      invariant 0 <= i
      invariant forall k :: 0 < k <= i && k < n ==> !SharePoint(ring[k - 1], ring[k], segment.start, segment.end)
    {
      SegmentsIntersectIffSharePoint(segment.start, segment.end, ring[i], ring[i + 1]);
      SharePointSwaps(segment.start, segment.end, ring[i], ring[i + 1]);
      if SegmentsIntersect(segment.start, segment.end, ring[i], ring[i + 1]) {
        assert SharePoint(ring[(i + 1) - 1], ring[i + 1], segment.start, segment.end);
        return true;
      }
      i := i + 1;
    }
    return false;
  }

  /** Some point of the closed segment lies on the ring's boundary or is inside it. */
  ghost predicate TouchesOrEnters(start: Point, end: Point, ring: Ring) {
    exists p :: OnSegment(p, start, end) && (OnBoundary(p, ring) || Inside(p, ring))
  }

  /** What the code evaluates for one segment and one zone. */
  ghost predicate Flagged(start: Point, end: Point, ring: Ring) {
    !Misses(start, end, ring) || Inside(start, ring) || Inside(end, ring)
  }

  lemma MissesIffNoBoundaryPoint(start: Point, end: Point, ring: Ring)
    ensures !Misses(start, end, ring) <==> exists p :: OnSegment(p, start, end) && OnBoundary(p, ring)
  {
    hide OnSegment;
    if p :| OnSegment(p, start, end) && OnBoundary(p, ring) {
      var i :| 0 < i < |ring| && OnSegment(p, ring[i - 1], ring[i]);
      assert SharePoint(ring[i - 1], ring[i], start, end);
    }
    if i :| 0 < i < |ring| && SharePoint(ring[i - 1], ring[i], start, end) {
      var p :| OnSegment(p, ring[i - 1], ring[i]) && OnSegment(p, start, end);
      assert OnBoundary(p, ring);
    }
  }

  /** Testing the edges and the two end points is complete: nothing in the middle of a segment is missed. */
  lemma FlaggedIffTouchesOrEnters(start: Point, end: Point, ring: Ring)
    requires Closed(ring)
    ensures Flagged(start, end, ring) <==> TouchesOrEnters(start, end, ring)
  {
    hide OnSegment;
    MissesIffNoBoundaryPoint(start, end, ring);
    EndsAreOnSegment(start, end);
    if p :| OnSegment(p, start, end) && Inside(p, ring) && Misses(start, end, ring) {
      MissingSegmentHasOneStatus(start, end, ring, p);
    }
  }

  /** The conflicts of route segment i with the first z zones, in zone order. */
  ghost function Row(waypoints: seq<Waypoint>, zones: seq<ConflictZone>, i: nat, z: nat): seq<Conflict>
    requires i + 1 < |waypoints| && z <= |zones|
  {
    if z == 0 then []
    else
      Row(waypoints, zones, i, z - 1)
      + if Flagged(WaypointToPoint(waypoints[i]), WaypointToPoint(waypoints[i + 1]), zones[z - 1].polygon)
        then [Conflict(i, zones[z - 1].id)] else []
  }

  /** The conflicts of the first n route segments, in segment order. */
  ghost function Rows(waypoints: seq<Waypoint>, zones: seq<ConflictZone>, n: nat): seq<Conflict>
    requires n == 0 || n < |waypoints|
  {
    if n == 0 then [] else Rows(waypoints, zones, n - 1) + Row(waypoints, zones, n - 1, |zones|)
  }

  ghost function AllConflicts(waypoints: seq<Waypoint>, zones: seq<ConflictZone>): seq<Conflict> {
    Rows(waypoints, zones, if |waypoints| == 0 then 0 else |waypoints| - 1)
  }

  method DetectConflicts(waypoints: seq<Waypoint>, zones: seq<ConflictZone>) returns (conflicts: seq<Conflict>)
    ensures conflicts == AllConflicts(waypoints, zones)
  {
    hide Misses, Inside, WaypointToPoint;
    conflicts := [];
    var i := 0;
    while i < |waypoints| - 1
      invariant 0 <= i && (i == 0 || i < |waypoints|)
      invariant conflicts == Rows(waypoints, zones, i)
    {
      var segment := Segment(WaypointToPoint(waypoints[i]), WaypointToPoint(waypoints[i + 1]));
      for z := 0 to |zones|
        invariant conflicts == Rows(waypoints, zones, i) + Row(waypoints, zones, i, z)
      {
        var touchesOrEnters := SegmentIntersectsPolygon(segment, zones[z].polygon);
        if !touchesOrEnters {
          touchesOrEnters := PointInPolygon(segment.start, zones[z].polygon);
        }
        if !touchesOrEnters {
          touchesOrEnters := PointInPolygon(segment.end, zones[z].polygon);
        }
        if touchesOrEnters {
          conflicts := conflicts + [Conflict(i, zones[z].id)];
        }
      }
      i := i + 1;
    }
  }

  /** Some point of the closed leg from waypoint i to the next is on or inside zone z: x is the longitude, y the
      latitude. */
  ghost predicate Offends(waypoints: seq<Waypoint>, zones: seq<ConflictZone>, i: nat, z: nat)
    requires i + 1 < |waypoints| && z < |zones|
  {
    var a, b := waypoints[i], waypoints[i + 1];
    exists p :: OnSegment(p, Point(a.lon, a.lat), Point(b.lon, b.lat))
             && (OnBoundary(p, zones[z].polygon) || Inside(p, zones[z].polygon))
  }

  lemma OffendsIffFlagged(waypoints: seq<Waypoint>, zones: seq<ConflictZone>, i: nat, z: nat)
    requires i + 1 < |waypoints| && z < |zones| && Closed(zones[z].polygon)
    ensures Offends(waypoints, zones, i, z) <==>
      Flagged(WaypointToPoint(waypoints[i]), WaypointToPoint(waypoints[i + 1]), zones[z].polygon)
  {
    FlaggedIffTouchesOrEnters(WaypointToPoint(waypoints[i]), WaypointToPoint(waypoints[i + 1]), zones[z].polygon);
    hide OnSegment, OnBoundary, Inside, Flagged;
  }

  lemma {:induction false} RowContents(waypoints: seq<Waypoint>, zones: seq<ConflictZone>, i: nat, z: nat, c: Conflict)
    requires i + 1 < |waypoints| && z <= |zones|
    requires forall k :: 0 <= k < |zones| ==> Closed(zones[k].polygon)
    ensures c in Row(waypoints, zones, i, z) <==>
      c.segmentIndex == i && exists k :: 0 <= k < z && zones[k].id == c.zoneId && Offends(waypoints, zones, i, k)
  {
    hide Offends, Flagged, Closed;
    if z > 0 {
      RowContents(waypoints, zones, i, z - 1, c);
      OffendsIffFlagged(waypoints, zones, i, z - 1);
    }
  }

  lemma {:induction false} RowsContents(waypoints: seq<Waypoint>, zones: seq<ConflictZone>, n: nat, c: Conflict)
    requires n == 0 || n < |waypoints|
    requires forall k :: 0 <= k < |zones| ==> Closed(zones[k].polygon)
    ensures c in Rows(waypoints, zones, n) <==>
      c.segmentIndex < n
      && exists k :: 0 <= k < |zones| && zones[k].id == c.zoneId && Offends(waypoints, zones, c.segmentIndex, k)
  {
    hide Row, Offends, Closed;
    if n > 0 {
      RowsContents(waypoints, zones, n - 1, c);
      RowContents(waypoints, zones, n - 1, |zones|, c);
    }
  }

  /** A conflict is emitted for a segment and a zone exactly when the segment touches or enters that zone. */
  lemma ConflictsAreExact(waypoints: seq<Waypoint>, zones: seq<ConflictZone>, c: Conflict)
    requires forall k :: 0 <= k < |zones| ==> Closed(zones[k].polygon)
    ensures c in AllConflicts(waypoints, zones) <==>
      c.segmentIndex + 1 < |waypoints|
      && exists k :: 0 <= k < |zones| && zones[k].id == c.zoneId && Offends(waypoints, zones, c.segmentIndex, k)
  {
    hide Offends, Closed;
    RowsContents(waypoints, zones, if |waypoints| == 0 then 0 else |waypoints| - 1, c);
  }

  /** The result is empty exactly when no point of any route segment is on or inside any zone. */
  lemma NoConflictIffRouteClear(waypoints: seq<Waypoint>, zones: seq<ConflictZone>)
    requires forall k :: 0 <= k < |zones| ==> Closed(zones[k].polygon)
    ensures AllConflicts(waypoints, zones) == [] <==>
      forall i: nat, k: nat :: i + 1 < |waypoints| && k < |zones| ==> !Offends(waypoints, zones, i, k)
  {
    hide Offends, Closed, AllConflicts;
    if AllConflicts(waypoints, zones) != [] {
      var c := AllConflicts(waypoints, zones)[0];
      ConflictsAreExact(waypoints, zones, c);
    }
    if i: nat, k: nat :| i + 1 < |waypoints| && k < |zones| && Offends(waypoints, zones, i, k) {
      ConflictsAreExact(waypoints, zones, Conflict(i, zones[k].id));
    }
  }

  // ----- the order of the conflicts -----

  datatype Pair = Pair(segment: nat, zone: nat)

  /** By segment, then by zone. */
  ghost predicate Earlier(p: Pair, q: Pair) {
    p.segment < q.segment || (p.segment == q.segment && p.zone < q.zone)
  }

  /** The conflicts are those of these pairs of a segment and a zone, which come in ascending order. */
  ghost predicate ListsPairs(waypoints: seq<Waypoint>, zones: seq<ConflictZone>, cs: seq<Conflict>, pairs: seq<Pair>) {
    && |cs| == |pairs|
    && (forall k :: 0 <= k < |pairs| ==> Names(waypoints, zones, cs[k], pairs[k]))
    && (forall k, l :: 0 <= k < l < |pairs| ==> Earlier(pairs[k], pairs[l]))
  }

  ghost predicate Names(waypoints: seq<Waypoint>, zones: seq<ConflictZone>, c: Conflict, p: Pair) {
    && p.segment + 1 < |waypoints| && p.zone < |zones| && Offends(waypoints, zones, p.segment, p.zone)
    && c == Conflict(p.segment, zones[p.zone].id)
  }

  lemma ListsBoth(waypoints: seq<Waypoint>, zones: seq<ConflictZone>, cs: seq<Conflict>, ds: seq<Conflict>,
      p: seq<Pair>, q: seq<Pair>)
    requires ListsPairs(waypoints, zones, cs, p) && ListsPairs(waypoints, zones, ds, q)
    requires forall k, l :: 0 <= k < |p| && 0 <= l < |q| ==> Earlier(p[k], q[l])
    ensures ListsPairs(waypoints, zones, cs + ds, p + q)
  {
    hide Names, Earlier;
  }

  /** The offending pairs of segment i with the first z zones. */
  ghost function RowPairs(waypoints: seq<Waypoint>, zones: seq<ConflictZone>, i: nat, z: nat): (pairs: seq<Pair>)
    requires i + 1 < |waypoints| && z <= |zones|
    ensures forall k :: 0 <= k < |pairs| ==> pairs[k].segment == i && pairs[k].zone < z
  {
    if z == 0 then []
    else RowPairs(waypoints, zones, i, z - 1) + if Offends(waypoints, zones, i, z - 1) then [Pair(i, z - 1)] else []
  }

  /** The offending pairs of the first n segments. */
  ghost function RowsPairs(waypoints: seq<Waypoint>, zones: seq<ConflictZone>, n: nat): (pairs: seq<Pair>)
    requires n == 0 || n < |waypoints|
    ensures forall k :: 0 <= k < |pairs| ==> pairs[k].segment < n
  {
    if n == 0 then []
    else RowsPairs(waypoints, zones, n - 1) + RowPairs(waypoints, zones, n - 1, |zones|)
  }

  lemma {:induction false} RowIsListed(waypoints: seq<Waypoint>, zones: seq<ConflictZone>, i: nat, z: nat)
    requires i + 1 < |waypoints| && z <= |zones| && forall k :: 0 <= k < |zones| ==> Closed(zones[k].polygon)
    ensures ListsPairs(waypoints, zones, Row(waypoints, zones, i, z), RowPairs(waypoints, zones, i, z))
  {
    hide Offends, Flagged, Closed, ListsPairs;
    if z == 0 {
      NothingIsListed(waypoints, zones);
    } else {
      var cs, pairs := Row(waypoints, zones, i, z - 1), RowPairs(waypoints, zones, i, z - 1);
      RowIsListed(waypoints, zones, i, z - 1);
      OffendsIffFlagged(waypoints, zones, i, z - 1);
      if Offends(waypoints, zones, i, z - 1) {
        OneIsListed(waypoints, zones, Pair(i, z - 1));
        ListsBoth(waypoints, zones, cs, [Conflict(i, zones[z - 1].id)], pairs, [Pair(i, z - 1)]);
      } else {
        assert cs + [] == cs && pairs + [] == pairs;
      }
    }
  }

  lemma NothingIsListed(waypoints: seq<Waypoint>, zones: seq<ConflictZone>)
    ensures ListsPairs(waypoints, zones, [], [])
  {
  }

  lemma OneIsListed(waypoints: seq<Waypoint>, zones: seq<ConflictZone>, p: Pair)
    requires p.segment + 1 < |waypoints| && p.zone < |zones| && Offends(waypoints, zones, p.segment, p.zone)
    ensures ListsPairs(waypoints, zones, [Conflict(p.segment, zones[p.zone].id)], [p])
  {
    hide Offends;
  }

  lemma {:induction false} RowsAreListed(waypoints: seq<Waypoint>, zones: seq<ConflictZone>, n: nat)
    requires n == 0 || n < |waypoints|
    requires forall k :: 0 <= k < |zones| ==> Closed(zones[k].polygon)
    ensures ListsPairs(waypoints, zones, Rows(waypoints, zones, n), RowsPairs(waypoints, zones, n))
  {
    hide Row, RowPairs, Closed, ListsPairs;
    if n == 0 {
      NothingIsListed(waypoints, zones);
    } else {
      RowsAreListed(waypoints, zones, n - 1);
      RowIsListed(waypoints, zones, n - 1, |zones|);
      ListsBoth(waypoints, zones, Rows(waypoints, zones, n - 1), Row(waypoints, zones, n - 1, |zones|),
        RowsPairs(waypoints, zones, n - 1), RowPairs(waypoints, zones, n - 1, |zones|));
    }
  }

  lemma {:induction false} RowPairsAreAll(waypoints: seq<Waypoint>, zones: seq<ConflictZone>, i: nat, z: nat, k: nat)
    requires i + 1 < |waypoints| && k < z <= |zones| && Offends(waypoints, zones, i, k)
    ensures Pair(i, k) in RowPairs(waypoints, zones, i, z)
  {
    hide Offends;
    if k < z - 1 {
      RowPairsAreAll(waypoints, zones, i, z - 1, k);
    }
  }

  lemma {:induction false} RowsPairsAreAll(waypoints: seq<Waypoint>, zones: seq<ConflictZone>, n: nat, i: nat, k: nat)
    requires i < n < |waypoints| && k < |zones| && Offends(waypoints, zones, i, k)
    ensures Pair(i, k) in RowsPairs(waypoints, zones, n)
  {
    hide Offends, RowPairs;
    if i < n - 1 {
      RowsPairsAreAll(waypoints, zones, n - 1, i, k);
    } else {
      RowPairsAreAll(waypoints, zones, i, |zones|, k);
    }
  }

  /** The conflicts are listed by segment and then by zone, one for each segment and zone that touch or meet. */
  lemma ConflictsAreListed(waypoints: seq<Waypoint>, zones: seq<ConflictZone>) returns (pairs: seq<Pair>)
    requires forall k :: 0 <= k < |zones| ==> Closed(zones[k].polygon)
    ensures ListsPairs(waypoints, zones, AllConflicts(waypoints, zones), pairs)
    ensures forall i: nat, k: nat :: i + 1 < |waypoints| && k < |zones| && Offends(waypoints, zones, i, k) ==>
      Pair(i, k) in pairs
  {
    hide Rows, Offends, Closed, ListsPairs, RowsPairs;
    var n := if |waypoints| == 0 then 0 else |waypoints| - 1;
    pairs := RowsPairs(waypoints, zones, n);
    RowsAreListed(waypoints, zones, n);
    forall i: nat, k: nat | i + 1 < |waypoints| && k < |zones| && Offends(waypoints, zones, i, k)
      ensures Pair(i, k) in pairs
    {
      RowsPairsAreAll(waypoints, zones, n, i, k);
    }
  }

  // ----- the even-odd test separates the plane -----

  /** p is strictly beyond the ring on some side. */
  predicate Beyond(p: Point, ring: Ring) {
    || (forall i :: 0 <= i < |ring| ==> ring[i].x < p.x)
    || (forall i :: 0 <= i < |ring| ==> ring[i].x > p.x)
    || (forall i :: 0 <= i < |ring| ==> ring[i].y < p.y)
    || (forall i :: 0 <= i < |ring| ==> ring[i].y > p.y)
  }

  lemma {:induction false} NoCrossingsBeyond(p: Point, ring: Ring, n: nat)
    requires n <= |ring|
    requires || (forall i :: 0 <= i < |ring| ==> ring[i].x < p.x)
             || (forall i :: 0 <= i < |ring| ==> ring[i].y < p.y)
             || (forall i :: 0 <= i < |ring| ==> ring[i].y > p.y)
    ensures Crossings(p, ring, n) == 0
  {
    if n > 0 {
      NoCrossingsBeyond(p, ring, n - 1);
      var u, v := ring[n - 1], Before(ring, n - 1);
      hide OnSegment;
      if RayCrosses(p, u, v) {
        var q :| OnSegment(q, u, v) && q.y == p.y && q.x > p.x;
        SegmentPointsInBox(q, u, v);
      }
    }
  }

  function Lowest(ring: Ring, p: Point): (y: real)
    ensures y <= p.y && forall i :: 0 <= i < |ring| ==> y <= ring[i].y
  {
    if ring == [] then p.y else Min(ring[0].y, Lowest(ring[1..], p))
  }

  /** Points beyond the ring on any side are outside it. */
  lemma BeyondIsOutside(p: Point, ring: Ring)
    requires Closed(ring) && Beyond(p, ring)
    ensures !Inside(p, ring)
  {
    if forall i :: 0 <= i < |ring| ==> ring[i].x > p.x {
      var q := Point(p.x, Lowest(ring, p) - 1.0);
      forall i | 0 < i < |ring| ensures !SharePoint(ring[i - 1], ring[i], p, q) {
        hide OnSegment;
        if w :| OnSegment(w, ring[i - 1], ring[i]) && OnSegment(w, p, q) {
          SegmentPointsInBox(w, ring[i - 1], ring[i]);
          SegmentPointsInBox(w, p, q);
        }
      }
      EndsAreOnSegment(p, q);
      MissingSegmentHasOneStatus(p, q, ring, p);
      NoCrossingsBeyond(q, ring, |ring|);
    } else {
      NoCrossingsBeyond(p, ring, |ring|);
    }
  }

  /** A route that starts inside a zone and ends beyond it is flagged: some leg meets the boundary. */
  lemma {:induction false} EscapeMeetsBoundary(path: seq<Point>, ring: Ring)
    requires Closed(ring) && |path| > 0
    requires Inside(path[0], ring) && Beyond(path[|path| - 1], ring)
    ensures exists i :: 0 <= i && i + 1 < |path| && !Misses(path[i], path[i + 1], ring)
  {
    if |path| == 1 {
      BeyondIsOutside(path[0], ring);
    } else if Misses(path[0], path[1], ring) {
      EndsAreOnSegment(path[0], path[1]);
      MissingSegmentHasOneStatus(path[0], path[1], ring, path[1]);
      EscapeMeetsBoundary(path[1..], ring);
      var i :| 0 <= i && i + 1 < |path[1..]| && !Misses(path[1..][i], path[1..][i + 1], ring);
      assert !Misses(path[i + 1], path[(i + 1) + 1], ring);
    } else {
      assert !Misses(path[0], path[0 + 1], ring);
    }
  }
}
