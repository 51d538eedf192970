/** The even-odd containment test, and how its answer changes along a segment. */
module EvenOdd {
  import opened Geometry

  /** The code's edge step: does the edge vi-vj toggle `inside` for point p? */
  predicate Toggles(p: Point, vi: Point, vj: Point) {
    var straddlesRay := (vi.y > p.y) != (vj.y > p.y);
    straddlesRay && p.x < IntersectX(vi, vj, p.y)
  }

  /** Where the line through vi and vj is at height y. */
  function IntersectX(vi: Point, vj: Point, y: real): real
    requires vi.y != vj.y
  {
    ((vj.x - vi.x) * (y - vi.y)) / (vj.y - vi.y) + vi.x
  }

  /** The rightward ray from p meets the edge u-v, an end point level with p counting as below it. */
  ghost predicate RayCrosses(p: Point, u: Point, v: Point) {
    && (u.y > p.y) != (v.y > p.y)
    && exists q :: OnSegment(q, u, v) && q.y == p.y && q.x > p.x
  }

  /** How many of the first n edges, edge i running from vertex i back to its cyclic predecessor, the ray crosses. */
  ghost function Crossings(p: Point, ring: Ring, n: nat): nat
    requires n <= |ring|
  {
    if n == 0 then 0
    else Crossings(p, ring, n - 1) + (if RayCrosses(p, ring[n - 1], Before(ring, n - 1)) then 1 else 0)
  }

  function Before(ring: Ring, i: nat): Point
    requires i < |ring|
  {
    if i == 0 then ring[|ring| - 1] else ring[i - 1]
  }

  /** p is inside the ring by the even-odd rule. */
  ghost predicate Inside(p: Point, ring: Ring) {
    Crossings(p, ring, |ring|) % 2 == 1
  }

  predicate Closed(ring: Ring) {
    |ring| > 0 ==> ring[0] == ring[|ring| - 1]
  }

  /** p is a point of one of the ring's edges. */
  ghost predicate OnBoundary(p: Point, ring: Ring) {
    exists i :: 0 < i < |ring| && OnSegment(p, ring[i - 1], ring[i])
  }

  method PointInPolygon(point: Point, ring: Ring) returns (inside: bool)
    ensures inside <==> Inside(point, ring)
  {
    inside := false;
    var n := |ring|;
    var i, j := 0, n - 1;
    while i < n
      invariant 0 <= i <= n
      invariant j == if i == 0 then n - 1 else i - 1
      invariant inside <==> Crossings(point, ring, i) % 2 == 1
    {
      var vi, vj := ring[i], ring[j];
      TogglesIffRayCrosses(point, vi, vj);
      if Toggles(point, vi, vj) {
        inside := !inside;
      }
      j := i;
      i := i + 1;
    }
  }

  // ----- the point of an edge at a given height -----

  function LevelPoint(u: Point, v: Point, y: real): Point
    requires u.y != v.y
  {
    Point(IntersectX(u, v, y), y)
  }

  lemma IntersectAtFraction(u: Point, v: Point, y: real, t: real)
    requires u.y != v.y && Times(t, v.y - u.y) == y - u.y
    ensures LevelPoint(u, v, y) == At(u, v, t)
  {
    var a, b, d := v.x - u.x, y - u.y, v.y - u.y;
    assert a * b == d * (t * a);
    UniqueFactor(d, (a * b) / d, t * a);
  }

  lemma LevelPointOnEdge(u: Point, v: Point, y: real)
    requires u.y != v.y && Min(u.y, v.y) <= y <= Max(u.y, v.y)
    ensures OnSegment(LevelPoint(u, v, y), u, v)
  {
    hide Times, IntersectX;
    var t := Fraction(y - u.y, v.y - u.y);
    IntersectAtFraction(u, v, y, t);
  }

  lemma LevelPointUnique(u: Point, v: Point, q: Point)
    requires u.y != v.y && OnSegment(q, u, v)
    ensures q == LevelPoint(u, v, q.y)
  {
    hide Times, IntersectX;
    var t: real :| 0.0 <= t <= 1.0 && q == At(u, v, t);
    IntersectAtFraction(u, v, q.y, t);
  }

  lemma TogglesIffRayCrosses(p: Point, u: Point, v: Point)
    ensures Toggles(p, u, v) <==> RayCrosses(p, u, v)
  {
    if (u.y > p.y) != (v.y > p.y) {
      hide IntersectX, OnSegment;
      LevelPointOnEdge(u, v, p.y);
      if q :| OnSegment(q, u, v) && q.y == p.y && q.x > p.x {
        LevelPointUnique(u, v, q);
      }
    }
  }

  // ----- the side of the segment PQ -----

  /** v lies strictly right of the upward segment PQ, inside the half-open slab P.y < y <= Q.y. */
  predicate Gate(P: Point, Q: Point, v: Point) {
    P.y < v.y <= Q.y && Side(P, Q, v)
  }

  predicate Side(P: Point, Q: Point, w: Point) {
    Orientation(P, Q, w) < 0.0
  }

  /** PQ and uv do not touch at an end point of either. */
  ghost predicate Generic(P: Point, Q: Point, u: Point, v: Point) {
    && !OnSegment(P, u, v)
    && !OnSegment(Q, u, v)
    && !OnSegment(u, P, Q)
    && !OnSegment(v, P, Q)
  }

  lemma SideAtFoot(P: Point, Q: Point, w: Point)
    requires P.y < Q.y
    ensures w.y == P.y ==> (Side(P, Q, w) <==> P.x < w.x)
    ensures w.y == Q.y ==> (Side(P, Q, w) <==> Q.x < w.x)
  {
    OrientationAtFoot(P, Q, w);
    hide Times, Orientation;
    TimesSign(P.x - w.x, Q.y - P.y);
    TimesSign(Q.x - w.x, Q.y - P.y);
  }

  lemma OrientationAtFoot(P: Point, Q: Point, w: Point)
    ensures w.y == P.y ==> Orientation(P, Q, w) == Times(P.x - w.x, Q.y - P.y)
    ensures w.y == Q.y ==> Orientation(P, Q, w) == Times(Q.x - w.x, Q.y - P.y)
  {
  }

  lemma OnLineInSlabIsOnSegment(P: Point, Q: Point, w: Point)
    requires P.y < Q.y && P.y <= w.y <= Q.y && Orientation(P, Q, w) == 0.0
    ensures OnSegment(w, P, Q)
  {
    hide Times, Orientation;
    var t := OnLine(P, Q, w);
    WithinUnit(t, Q.y - P.y, w.y - P.y);
  }

  /** Within PQ's slab, a segment that changes side meets PQ, and one that does not change side does not. */
  lemma SideFlip(P: Point, Q: Point, lo: Point, hi: Point)
    requires P.y < Q.y && P.y <= lo.y <= Q.y && P.y <= hi.y <= Q.y
    requires !OnSegment(lo, P, Q) && !OnSegment(hi, P, Q)
    ensures Side(P, Q, lo) != Side(P, Q, hi) <==> SharePoint(lo, hi, P, Q)
  {
    hide Orientation, Times, At;
    var o1, o2 := Orientation(P, Q, lo), Orientation(P, Q, hi);
    if o1 == 0.0 { OnLineInSlabIsOnSegment(P, Q, lo); }
    if o2 == 0.0 { OnLineInSlabIsOnSegment(P, Q, hi); }
    if Side(P, Q, lo) != Side(P, Q, hi) {
      var s := Fraction(-o1, o2 - o1);
      OrientationAffine(P, Q, lo, hi, s);
      var w := At(lo, hi, s);
      assert OnSegment(w, lo, hi);
      SegmentPointsInBox(w, lo, hi);
      OnLineInSlabIsOnSegment(P, Q, w);
    } else if w :| OnSegment(w, lo, hi) && OnSegment(w, P, Q) {
      SegmentPointsInBox(w, P, Q);
      SameSideMeansCollinear(lo, hi, P, Q, w);
    }
  }

  /** Cutting an edge to PQ's slab does not change whether it meets PQ. */
  lemma ClipKeepsMeeting(P: Point, Q: Point, u: Point, v: Point, lo: Point, hi: Point)
    requires P.y <= Q.y && u.y < v.y
    requires OnSegment(lo, u, v) && OnSegment(hi, u, v)
    requires lo.y == Max(P.y, u.y) && hi.y == Min(Q.y, v.y) && lo.y <= hi.y
    ensures SharePoint(lo, hi, P, Q) <==> SharePoint(u, v, P, Q)
  {
    var i: real :| 0.0 <= i <= 1.0 && lo == At(u, v, i);
    var j: real :| 0.0 <= j <= 1.0 && hi == At(u, v, j);
    hide At, Times;
    if w :| OnSegment(w, lo, hi) && OnSegment(w, P, Q) {
      var s: real :| 0.0 <= s <= 1.0 && w == At(lo, hi, s);
      PartIsOnSegment(u, v, i, j, s);
    }
    if w :| OnSegment(w, u, v) && OnSegment(w, P, Q) {
      SegmentPointsInBox(w, u, v);
      SegmentPointsInBox(w, P, Q);
      EdgePartOnSegment(u, v, i, j, w);
    }
  }

  lemma PartIsOnSegment(u: Point, v: Point, i: real, j: real, s: real)
    requires 0.0 <= i <= 1.0 && 0.0 <= j <= 1.0 && 0.0 <= s <= 1.0
    ensures OnSegment(At(At(u, v, i), At(u, v, j), s), u, v)
  {
    hide At, Times;
    AtOfAt(u, v, i, j, s);
    Scaled(s, j - i);
  }

  /** A point of an edge whose height is between two of its points is between those points. */
  lemma EdgePartOnSegment(u: Point, v: Point, i: real, j: real, w: Point)
    requires u.y < v.y && OnSegment(w, u, v)
    requires At(u, v, i).y <= w.y <= At(u, v, j).y
    ensures OnSegment(w, At(u, v, i), At(u, v, j))
  {
    hide At, Times;
    var k: real :| 0.0 <= k <= 1.0 && w == At(u, v, k);
    OrderedHeights(u, v, i, k);
    OrderedHeights(u, v, k, j);
    var r := ReachBetween(i, k, j);
    AtOfAt(u, v, i, j, r);
  }

  lemma OrderedHeights(u: Point, v: Point, i: real, k: real)
    requires u.y < v.y && At(u, v, i).y <= At(u, v, k).y
    ensures i <= k
  {
    hide Times;
    TimesSign(i - k, v.y - u.y);
    TimesMinus(i, k, v.y - u.y);
  }

  lemma ReachBetween(i: real, k: real, j: real) returns (r: real)
    requires i <= k <= j
    ensures 0.0 <= r <= 1.0 && i + Times(r, j - i) == k
  {
    hide Times;
    if i == j {
      r := 0.0;
      TimesOne(j - i);
    } else {
      r := Fraction(k - i, j - i);
    }
  }

  // ----- one edge -----

  /** One edge, PQ rising and uv rising: the toggles at P and Q differ from the gates at u and v by whether they
      meet. */
  lemma RisingEdge(P: Point, Q: Point, u: Point, v: Point)
    requires P.y < Q.y && u.y <= v.y && Generic(P, Q, u, v)
    ensures ((RayCrosses(P, u, v) != RayCrosses(Q, u, v)) != (Gate(P, Q, u) != Gate(P, Q, v)))
       <==> SharePoint(u, v, P, Q)
  {
    if v.y <= P.y || u.y > Q.y || u.y == v.y {
      EdgeBesideSlab(P, Q, u, v);
    } else {
      var lo := if u.y <= P.y then LevelPoint(u, v, P.y) else u;
      var hi := if v.y > Q.y then LevelPoint(u, v, Q.y) else v;
      if u.y <= P.y { LevelPointOnEdge(u, v, P.y); }
      if v.y > Q.y { LevelPointOnEdge(u, v, Q.y); }
      EndsAreOnSegment(u, v);
      LowEnd(P, Q, u, v, lo);
      HighEnd(P, Q, u, v, hi);
      SideFlip(P, Q, lo, hi);
      ClipKeepsMeeting(P, Q, u, v, lo, hi);
    }
  }

  lemma LowEnd(P: Point, Q: Point, u: Point, v: Point, lo: Point)
    requires P.y < Q.y && u.y < v.y && v.y > P.y && u.y <= Q.y && Generic(P, Q, u, v)
    requires lo == if u.y <= P.y then LevelPoint(u, v, P.y) else u
    ensures !OnSegment(lo, P, Q)
    ensures (RayCrosses(P, u, v) != Gate(P, Q, u)) <==> Side(P, Q, lo)
  {
    TogglesIffRayCrosses(P, u, v);
    SideAtFoot(P, Q, lo);
    if u.y <= P.y {
      LevelPointOnEdge(u, v, P.y);
      if OnSegment(lo, P, Q) {
        OnlyFootAtFoot(P, Q, lo);
      }
    }
  }

  lemma HighEnd(P: Point, Q: Point, u: Point, v: Point, hi: Point)
    requires P.y < Q.y && u.y < v.y && v.y > P.y && u.y <= Q.y && Generic(P, Q, u, v)
    requires hi == if v.y > Q.y then LevelPoint(u, v, Q.y) else v
    ensures !OnSegment(hi, P, Q)
    ensures (RayCrosses(Q, u, v) != Gate(P, Q, v)) <==> Side(P, Q, hi)
  {
    TogglesIffRayCrosses(Q, u, v);
    SideAtFoot(P, Q, hi);
    if v.y > Q.y {
      LevelPointOnEdge(u, v, Q.y);
      if OnSegment(hi, P, Q) {
        OnlyFootAtFoot(P, Q, hi);
      }
    }
  }

  /** The only points of a rising segment at the height of an end are that end. */
  lemma OnlyFootAtFoot(P: Point, Q: Point, w: Point)
    requires P.y < Q.y && OnSegment(w, P, Q)
    ensures w.y == P.y ==> w == P
    ensures w.y == Q.y ==> w == Q
  {
    LevelPointUnique(P, Q, w);
    EndsAreOnSegment(P, Q);
    LevelPointUnique(P, Q, P);
    LevelPointUnique(P, Q, Q);
  }

  /** An edge outside the slab, or a flat one, is neither crossed nor met. */
  lemma EdgeBesideSlab(P: Point, Q: Point, u: Point, v: Point)
    requires P.y < Q.y && u.y <= v.y && Generic(P, Q, u, v)
    requires v.y <= P.y || u.y > Q.y || u.y == v.y
    ensures ((RayCrosses(P, u, v) != RayCrosses(Q, u, v)) != (Gate(P, Q, u) != Gate(P, Q, v)))
       <==> SharePoint(u, v, P, Q)
  {
    if P.y < u.y == v.y <= Q.y {
      SideFlip(P, Q, u, v);
    } else if w :| OnSegment(w, u, v) && OnSegment(w, P, Q) {
      SegmentPointsInBox(w, u, v);
      SegmentPointsInBox(w, P, Q);
      OnlyFootAtFoot(P, Q, w);
    }
  }

  /** One edge, PQ level. */
  lemma LevelEdge(P: Point, Q: Point, u: Point, v: Point)
    requires P.y == Q.y && Generic(P, Q, u, v)
    ensures RayCrosses(P, u, v) != RayCrosses(Q, u, v) <==> SharePoint(u, v, P, Q)
  {
    if (u.y > P.y) != (v.y > P.y) {
      var m := LevelPoint(u, v, P.y);
      LevelCrossing(P, u, v);
      LevelCrossing(Q, u, v);
      LevelPointOnEdge(u, v, P.y);
      OnSegmentIff(m, P, Q);
      hide OnSegment, IntersectX;
      if w :| OnSegment(w, u, v) && OnSegment(w, P, Q) {
        SegmentPointsInBox(w, P, Q);
        LevelPointUnique(u, v, w);
      }
    } else if w :| OnSegment(w, u, v) && OnSegment(w, P, Q) {
      LevelTouch(P, Q, u, v, w);
    }
  }

  lemma LevelCrossing(p: Point, u: Point, v: Point)
    requires (u.y > p.y) != (v.y > p.y)
    ensures RayCrosses(p, u, v) <==> p.x < LevelPoint(u, v, p.y).x
  {
    TogglesIffRayCrosses(p, u, v);
  }

  /** An edge lying on one side of a level segment can only touch it at an end point of one of them. */
  lemma LevelTouch(P: Point, Q: Point, u: Point, v: Point, w: Point)
    requires P.y == Q.y && (u.y > P.y) == (v.y > P.y)
    requires OnSegment(w, u, v) && OnSegment(w, P, Q)
    ensures !Generic(P, Q, u, v)
  {
    SegmentPointsInBox(w, P, Q);
    SegmentPointsInBox(w, u, v);
    if u.y != v.y {
      LevelPointUnique(u, v, w);
      EndsAreOnSegment(u, v);
      LevelPointUnique(u, v, u);
      LevelPointUnique(u, v, v);
    } else {
      OnSegmentIff(u, P, Q);
      OnSegmentIff(P, u, v);
      OnSegmentIff(Q, u, v);
      OnSegmentIff(v, P, Q);
    }
  }

  // ----- the whole ring -----

  /** How many of the ring's edges share a point with the segment PQ. */
  ghost function Meetings(P: Point, Q: Point, ring: Ring, n: nat): nat
    requires n <= |ring|
  {
    if n <= 1 then 0
    else Meetings(P, Q, ring, n - 1) + (if SharePoint(ring[n - 2], ring[n - 1], P, Q) then 1 else 0)
  }

  /** PQ meets the ring, if at all, only across the middle of its edges. */
  ghost predicate CleanlyPlaced(P: Point, Q: Point, ring: Ring) {
    forall i :: 0 < i < |ring| ==> Generic(P, Q, ring[i - 1], ring[i])
  }

  lemma EdgeStep(P: Point, Q: Point, u: Point, v: Point)
    requires P.y <= Q.y && Generic(P, Q, u, v)
    ensures ((RayCrosses(P, v, u) != RayCrosses(Q, v, u)) != (Gate(P, Q, u) != Gate(P, Q, v)))
       <==> SharePoint(u, v, P, Q)
  {
    OnSegmentSwaps(P, u, v);
    OnSegmentSwaps(Q, u, v);
    SharePointSwaps(u, v, P, Q);
    RayCrossesSwaps(P, u, v);
    RayCrossesSwaps(Q, u, v);
    if P.y == Q.y {
      LevelEdge(P, Q, u, v);
    } else if u.y <= v.y {
      RisingEdge(P, Q, u, v);
    } else {
      RisingEdge(P, Q, v, u);
    }
  }

  lemma RayCrossesSwaps(p: Point, u: Point, v: Point)
    ensures RayCrosses(p, u, v) <==> RayCrosses(p, v, u)
  {
    forall q ensures OnSegment(q, u, v) <==> OnSegment(q, v, u) { OnSegmentSwaps(q, u, v); }
  }

  lemma NoCrossingOfPoint(p: Point, u: Point)
    ensures !RayCrosses(p, u, u)
  {
  }

  /** The gates of a chain of edges telescope to its two ends. */
  lemma {:induction false} ChainParity(P: Point, Q: Point, ring: Ring, n: nat)
    requires 0 < n <= |ring| && P.y <= Q.y && Closed(ring) && CleanlyPlaced(P, Q, ring)
    ensures ((Crossings(P, ring, n) % 2 == 1) != (Crossings(Q, ring, n) % 2 == 1))
         != (Gate(P, Q, ring[0]) != Gate(P, Q, ring[n - 1]))
       <==> Meetings(P, Q, ring, n) % 2 == 1
  {
    hide RayCrosses, Gate, SharePoint, Generic;
    if n == 1 {
      assert Crossings(P, ring, 0) == 0 && Crossings(Q, ring, 0) == 0;
      NoCrossingOfPoint(P, ring[0]);
      NoCrossingOfPoint(Q, ring[0]);
    } else {
      ChainParity(P, Q, ring, n - 1);
      assert Generic(P, Q, ring[n - 2], ring[n - 1]);
      EdgeStep(P, Q, ring[n - 2], ring[n - 1]);
    }
  }

  lemma {:induction false} MeetingsSwap(P: Point, Q: Point, ring: Ring, n: nat)
    requires n <= |ring|
    ensures Meetings(P, Q, ring, n) == Meetings(Q, P, ring, n)
  {
    if n > 1 {
      SharePointSwaps(ring[n - 2], ring[n - 1], P, Q);
      MeetingsSwap(P, Q, ring, n - 1);
    }
  }

  /** Jordan's crossing rule: along a segment that meets the ring only across the middle of edges,
      containment changes exactly when an odd number of edges is crossed. */
  lemma CrossingRule(P: Point, Q: Point, ring: Ring)
    requires Closed(ring) && CleanlyPlaced(P, Q, ring)
    ensures Inside(P, ring) != Inside(Q, ring) <==> Meetings(P, Q, ring, |ring|) % 2 == 1
  {
    if |ring| == 0 {
    } else if P.y <= Q.y {
      ChainParity(P, Q, ring, |ring|);
    } else {
      forall i | 0 < i < |ring| ensures Generic(Q, P, ring[i - 1], ring[i]) {
        assert Generic(P, Q, ring[i - 1], ring[i]);
        OnSegmentSwaps(ring[i - 1], P, Q);
        OnSegmentSwaps(ring[i], P, Q);
      }
      ChainParity(Q, P, ring, |ring|);
      MeetingsSwap(P, Q, ring, |ring|);
    }
  }

  /** The segment PQ has no point on the ring's boundary. */
  ghost predicate Misses(P: Point, Q: Point, ring: Ring) {
    forall i :: 0 < i < |ring| ==> !SharePoint(ring[i - 1], ring[i], P, Q)
  }

  lemma {:induction false} NoMeetings(P: Point, Q: Point, ring: Ring, n: nat)
    requires n <= |ring| && Misses(P, Q, ring)
    ensures Meetings(P, Q, ring, n) == 0
  {
    if n > 1 {
      NoMeetings(P, Q, ring, n - 1);
      assert !SharePoint(ring[(n - 1) - 1], ring[n - 1], P, Q);
    }
  }

  /** A segment that misses every edge has one even-odd status at all its points. */
  lemma MissingSegmentHasOneStatus(P: Point, Q: Point, ring: Ring, R: Point)
    requires Closed(ring) && Misses(P, Q, ring) && OnSegment(R, P, Q)
    ensures Inside(P, ring) == Inside(R, ring) == Inside(Q, ring)
  {
    SameStatusAt(P, Q, ring, R);
    EndsAreOnSegment(P, Q);
    SameStatusAt(P, Q, ring, Q);
  }

  lemma SameStatusAt(P: Point, Q: Point, ring: Ring, R: Point)
    requires Closed(ring) && Misses(P, Q, ring) && OnSegment(R, P, Q)
    ensures Inside(P, ring) == Inside(R, ring)
  {
    forall i | 0 < i < |ring|
      ensures !SharePoint(ring[i - 1], ring[i], P, R) && Generic(P, R, ring[i - 1], ring[i])
    {
      assert !SharePoint(ring[i - 1], ring[i], P, Q);
      PartOfSegment(P, Q, R);
      EndsAreOnSegment(ring[i - 1], ring[i]);
      EndsAreOnSegment(P, R);
    }
    NoMeetings(P, R, ring, |ring|);
    CrossingRule(P, R, ring);
  }

  /** The part of a segment before one of its points belongs to the segment. */
  lemma PartOfSegment(P: Point, Q: Point, R: Point)
    requires OnSegment(R, P, Q)
    ensures forall w :: OnSegment(w, P, R) ==> OnSegment(w, P, Q)
  {
    hide At, Times;
    var r: real :| 0.0 <= r <= 1.0 && R == At(P, Q, r);
    AtZero(P, Q);
    forall w | OnSegment(w, P, R) ensures OnSegment(w, P, Q) {
      var s: real :| 0.0 <= s <= 1.0 && w == At(P, R, s);
      PartIsOnSegment(P, Q, 0.0, r, s);
    }
  }
}
