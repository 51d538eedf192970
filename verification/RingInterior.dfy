/** What accepting a ring buys: every edge of a simple polygon separates inside from outside, so the polygon has
    an inside. */
module RingInterior {
  import opened Geometry
  import opened EvenOdd
  import opened GeofenceValidation

  /** M moved s times along the vector d. */
  function Along(M: Point, d: Point, s: real): Point {
    Point(M.x + Times(s, d.x), M.y + Times(s, d.y))
  }

  function Midpoint(u: Point, v: Point): Point {
    At(u, v, 0.5)
  }

  /** The edge's direction, turned left. */
  function Normal(u: Point, v: Point): Point {
    Point(u.y - v.y, v.x - u.x)
  }

  // ----- a point off a segment has some room -----

  lemma SmallStep(g: real, c: real) returns (eps: real)
    requires g > 0.0
    ensures eps > 0.0 && forall s: real :: -eps <= s <= eps ==> -g < Times(s, c) < g
  {
    hide Times;
    if c == 0.0 {
      eps := 1.0;
      forall s: real ensures Times(s, c) == 0.0 {
        TimesOne(s);
      }
    } else {
      eps := Quotient(g / 2.0, if c > 0.0 then c else -c);
      TimesSign(eps, if c > 0.0 then c else -c);
      TimesOne(if c > 0.0 then c else -c);
      forall s: real | -eps <= s <= eps ensures -g < Times(s, c) < g {
        Between(s, eps, c, g / 2.0);
      }
    }
  }

  lemma Between(s: real, eps: real, c: real, half: real)
    requires c != 0.0 && -eps <= s <= eps && Times(eps, if c > 0.0 then c else -c) == half
    ensures -half <= Times(s, c) <= half
  {
    hide Times;
    TimesMinus(eps, s, c);
    TimesMinus(0.0, s, c);
    TimesMinus(eps, 0.0 - s, c);
    TimesOne(c);
    TimesSign(eps - s, c);
    TimesSign(eps - (0.0 - s), c);
    NegatedFactor(eps, c);
  }

  lemma NegatedFactor(a: real, c: real)
    ensures Times(a, -c) == -Times(a, c)
  {
  }

  /** Orientation against a fixed line is affine along a vector. */
  lemma OrientationAlong(a: Point, b: Point, M: Point, d: Point, s: real)
    ensures Orientation(a, b, Along(M, d, s))
         == Orientation(a, b, M) + Times(s, (b.x - a.x) * d.y - (b.y - a.y) * d.x)
  {
    var ux, uy := b.x - a.x, b.y - a.y;
    assert ux * (M.y + s * d.y - a.y) == ux * (M.y - a.y) + s * (ux * d.y);
    assert uy * (M.x + s * d.x - a.x) == uy * (M.x - a.x) + s * (uy * d.x);
    assert s * (ux * d.y - uy * d.x) == s * (ux * d.y) - s * (uy * d.x);
  }

  /** The points within eps of M, in the direction of d, are off the segment. */
  ghost predicate Clear(M: Point, d: Point, eps: real, a: Point, b: Point) {
    forall s: real :: -eps <= s <= eps ==> !OnSegment(Along(M, d, s), a, b)
  }

  lemma OffLineIsClear(M: Point, d: Point, a: Point, b: Point) returns (eps: real)
    requires Orientation(a, b, M) != 0.0
    ensures eps > 0.0 && Clear(M, d, eps, a, b)
  {
    var o, c := Orientation(a, b, M), (b.x - a.x) * d.y - (b.y - a.y) * d.x;
    hide Times, Orientation, OnSegment;
    eps := SmallStep(if o > 0.0 then o else -o, c);
    forall s: real | -eps <= s <= eps ensures !OnSegment(Along(M, d, s), a, b) {
      OrientationAlong(a, b, M, d, s);
      OnSegmentIff(Along(M, d, s), a, b);
    }
  }

  lemma OffBoxIsClear(M: Point, d: Point, a: Point, b: Point) returns (eps: real)
    requires !WithinBoundingBox(a, b, M)
    ensures eps > 0.0 && Clear(M, d, eps, a, b)
  {
    hide Times, OnSegment;
    var low, left := M.y < Min(a.y, b.y), M.x < Min(a.x, b.x);
    if M.x < Min(a.x, b.x) || M.x > Max(a.x, b.x) {
      eps := SmallStep(if left then Min(a.x, b.x) - M.x else M.x - Max(a.x, b.x), d.x);
    } else {
      eps := SmallStep(if low then Min(a.y, b.y) - M.y else M.y - Max(a.y, b.y), d.y);
    }
    forall s: real | -eps <= s <= eps ensures !OnSegment(Along(M, d, s), a, b) {
      if OnSegment(Along(M, d, s), a, b) {
        SegmentPointsInBox(Along(M, d, s), a, b);
      }
    }
  }

  lemma OffSegmentIsClear(M: Point, d: Point, a: Point, b: Point) returns (eps: real)
    requires !OnSegment(M, a, b)
    ensures eps > 0.0 && Clear(M, d, eps, a, b)
  {
    hide Orientation, Clear, OnSegment;
    OnSegmentIff(M, a, b);
    if Orientation(a, b, M) != 0.0 {
      eps := OffLineIsClear(M, d, a, b);
    } else {
      eps := OffBoxIsClear(M, d, a, b);
    }
  }

  lemma SmallerIsClear(M: Point, d: Point, eps: real, smaller: real, a: Point, b: Point)
    requires Clear(M, d, eps, a, b) && smaller <= eps
    ensures Clear(M, d, smaller, a, b)
  {
    hide OnSegment, Along;
  }

  /** Room around M with respect to all edges but the k-th. */
  lemma {:induction false} RoomAround(ring: Ring, k: nat, n: nat, M: Point, d: Point) returns (eps: real)
    requires n <= |ring|
    requires forall i :: 0 < i < n && i != k ==> !OnSegment(M, ring[i - 1], ring[i])
    ensures eps > 0.0 && forall i :: 0 < i < n && i != k ==> Clear(M, d, eps, ring[i - 1], ring[i])
  {
    hide OnSegment, Clear;
    if n <= 1 {
      eps := 1.0;
    } else {
      var before := RoomAround(ring, k, n - 1, M, d);
      eps := before;
      if n - 1 != k {
        assert !OnSegment(M, ring[(n - 1) - 1], ring[n - 1]);
        var own := OffSegmentIsClear(M, d, ring[n - 2], ring[n - 1]);
        eps := if own < before then own else before;
        SmallerIsClear(M, d, own, eps, ring[n - 2], ring[n - 1]);
        forall i | 0 < i < n - 1 && i != k ensures Clear(M, d, eps, ring[i - 1], ring[i]) {
          SmallerIsClear(M, d, before, eps, ring[i - 1], ring[i]);
        }
      }
    }
  }

  // ----- the middle of an edge of a simple polygon is on no other edge -----

  lemma EdgeOf(ring: Ring, i: nat)
    requires |ring| >= 4 && Closed(ring) && 0 < i < |ring|
    ensures EdgeStart(ring[..|ring| - 1], i - 1) == ring[i - 1] && EdgeEnd(ring[..|ring| - 1], i - 1) == ring[i]
  {
    EdgeEnds(ring[..|ring| - 1], i - 1);
  }

  lemma MidpointIsInside(u: Point, v: Point)
    requires u != v
    ensures OnSegment(Midpoint(u, v), u, v) && Midpoint(u, v) != u && Midpoint(u, v) != v
  {
  }

  lemma MiddleOfNeighbours(a: Point, b: Point, c: Point)
    requires OnlyVertexShared(a, b, c) && a != b && b != c
    ensures !OnSegment(Midpoint(a, b), b, c) && !OnSegment(Midpoint(b, c), a, b)
  {
    MidpointIsInside(a, b);
    MidpointIsInside(b, c);
    hide OnSegment, Midpoint;
  }

  lemma MiddleIsOnNoOtherEdge(ring: Ring, k: nat, i: nat)
    requires |ring| >= 4 && Closed(ring) && SimpleCycle(ring[..|ring| - 1])
    requires 0 < k < |ring| && 0 < i < |ring| && i != k
    ensures !OnSegment(Midpoint(ring[k - 1], ring[k]), ring[i - 1], ring[i])
  {
    var vertices := ring[..|ring| - 1];
    EdgeOf(ring, k);
    EdgeOf(ring, i);
    var lo, hi := if k < i then k - 1 else i - 1, if k < i then i - 1 else k - 1;
    hide EdgeStart, EdgeEnd, OnSegment, Midpoint;
    assert EdgeStart(vertices, lo) != EdgeEnd(vertices, lo) && EdgeStart(vertices, hi) != EdgeEnd(vertices, hi);
    if !Adjacent(|vertices|, lo, hi) {
      assert Disjoint(vertices, lo, hi);
      MidpointIsInside(ring[k - 1], ring[k]);
    } else {
      var first := if hi == lo + 1 then lo else hi;
      NextEdge(vertices, first);
      assert OnlyVertexShared(EdgeStart(vertices, first), EdgeEnd(vertices, first), EdgeEnd(vertices, first + 1));
      hide OnlyVertexShared, SimpleCycle;
      MiddleOfNeighbours(EdgeStart(vertices, first), EdgeEnd(vertices, first), EdgeEnd(vertices, first + 1));
    }
  }

  // ----- crossing one edge -----

  /** The points of the crossing segment are M moved by at most t. */
  lemma PointOfCrossing(M: Point, d: Point, t: real, w: Point) returns (s: real)
    requires t >= 0.0 && OnSegment(w, Along(M, d, -t), Along(M, d, t))
    ensures -t <= s <= t && w == Along(M, d, s)
  {
    var r: real :| 0.0 <= r <= 1.0 && w == At(Along(M, d, -t), Along(M, d, t), r);
    s := (2.0 * r - 1.0) * t;
    assert s == 2.0 * (r * t) - t && 0.0 <= r * t <= t;
    CrossingCoordinate(M.x, d.x, t, r);
    CrossingCoordinate(M.y, d.y, t, r);
  }

  lemma CrossingCoordinate(m: real, d: real, t: real, r: real)
    ensures (m + Times(-t, d)) + Times(r, (m + Times(t, d)) - (m + Times(-t, d))) == m + Times((2.0 * r - 1.0) * t, d)
  {
    assert Times(-t, d) == -(t * d) && Times(t, d) == t * d;
    assert Times(r, 2.0 * (t * d)) == 2.0 * (r * (t * d));
    assert Times((2.0 * r - 1.0) * t, d) == 2.0 * (r * (t * d)) - t * d;
  }

  lemma LengthSquared(u: Point, v: Point)
    requires u != v
    ensures (v.x - u.x) * Normal(u, v).y - (v.y - u.y) * Normal(u, v).x > 0.0
  {
    var dx, dy := v.x - u.x, v.y - u.y;
    TimesSign(dx, dx);
    TimesSign(dy, dy);
    assert dx != 0.0 || dy != 0.0;
    assert dx * dx - dy * (-dy) == Times(dx, dx) + Times(dy, dy);
    assert Normal(u, v) == Point(-dy, dx);
  }

  /** Off the edge on either side, the line through the edge is not met. */
  lemma OnlyTheMiddleIsOnTheLine(u: Point, v: Point, s: real)
    requires u != v
    ensures Orientation(u, v, Along(Midpoint(u, v), Normal(u, v), s)) == 0.0 <==> s == 0.0
  {
    AtIsCollinear(u, v, 0.5);
    OrientationAlong(u, v, Midpoint(u, v), Normal(u, v), s);
    LengthSquared(u, v);
    var c := (v.x - u.x) * Normal(u, v).y - (v.y - u.y) * Normal(u, v).x;
    TimesSign(s, c);
    TimesOne(c);
    hide Times, Orientation, Normal, Midpoint, Along;
  }

  lemma AlongNothing(M: Point, d: Point)
    ensures Along(M, d, 0.0) == M
  {
    TimesOne(d.x);
    TimesOne(d.y);
  }

  lemma CrossesOwnEdge(u: Point, v: Point, t: real)
    requires u != v && t > 0.0
    ensures var M, d := Midpoint(u, v), Normal(u, v);
            Generic(Along(M, d, -t), Along(M, d, t), u, v) && SharePoint(u, v, Along(M, d, -t), Along(M, d, t))
  {
    var M, d := Midpoint(u, v), Normal(u, v);
    var P, Q := Along(M, d, -t), Along(M, d, t);
    MidpointIsInside(u, v);
    OnlyTheMiddleIsOnTheLine(u, v, t);
    OnlyTheMiddleIsOnTheLine(u, v, -t);
    OnSegmentIff(P, u, v);
    OnSegmentIff(Q, u, v);
    EndIsNotCrossed(u, v, t, u);
    EndIsNotCrossed(u, v, t, v);
    MiddleIsCrossed(M, d, t);
    hide OnSegment, Orientation, Midpoint, Normal, Along, WithinBoundingBox;
  }

  lemma EndIsNotCrossed(u: Point, v: Point, t: real, end: Point)
    requires u != v && t > 0.0 && (end == u || end == v)
    ensures var M, d := Midpoint(u, v), Normal(u, v); !OnSegment(end, Along(M, d, -t), Along(M, d, t))
  {
    var M, d := Midpoint(u, v), Normal(u, v);
    MidpointIsInside(u, v);
    assert Orientation(u, v, end) == 0.0;
    hide OnSegment, Midpoint, Normal, Orientation;
    if OnSegment(end, Along(M, d, -t), Along(M, d, t)) {
      var s := PointOfCrossing(M, d, t, end);
      OnlyTheMiddleIsOnTheLine(u, v, s);
      AlongNothing(M, d);
    }
  }

  lemma MiddleIsCrossed(M: Point, d: Point, t: real)
    ensures OnSegment(M, Along(M, d, -t), Along(M, d, t))
  {
    CrossingCoordinate(M.x, d.x, t, 0.5);
    CrossingCoordinate(M.y, d.y, t, 0.5);
    TimesOne(d.x);
    TimesOne(d.y);
    assert M == At(Along(M, d, -t), Along(M, d, t), 0.5);
  }

  lemma MissesOtherEdge(M: Point, d: Point, eps: real, t: real, a: Point, b: Point)
    requires 0.0 < t <= eps && Clear(M, d, eps, a, b)
    ensures Generic(Along(M, d, -t), Along(M, d, t), a, b) && !SharePoint(a, b, Along(M, d, -t), Along(M, d, t))
  {
    hide OnSegment, Along;
    var P, Q := Along(M, d, -t), Along(M, d, t);
    forall w | OnSegment(w, P, Q) ensures !OnSegment(w, a, b) {
      var s := PointOfCrossing(M, d, t, w);
    }
    EndsAreOnSegment(P, Q);
    EndsAreOnSegment(a, b);
  }

  lemma {:induction false} OneMeeting(P: Point, Q: Point, ring: Ring, k: nat, n: nat)
    requires n <= |ring| && 0 < k
    requires forall i :: 0 < i < n ==> (SharePoint(ring[i - 1], ring[i], P, Q) <==> i == k)
    ensures Meetings(P, Q, ring, n) == if k < n then 1 else 0
  {
    hide SharePoint;
    if n > 1 {
      OneMeeting(P, Q, ring, k, n - 1);
      assert SharePoint(ring[(n - 1) - 1], ring[n - 1], P, Q) <==> n - 1 == k;
    }
  }

  /** Just either side of the middle of any edge of a simple polygon, one point is inside and the other is not. */
  lemma EdgeSeparates(ring: Ring, k: nat) returns (eps: real)
    requires |ring| >= 4 && Closed(ring) && SimpleCycle(ring[..|ring| - 1]) && 0 < k < |ring|
    ensures var M, d := Midpoint(ring[k - 1], ring[k]), Normal(ring[k - 1], ring[k]);
            eps > 0.0 && forall t: real :: 0.0 < t <= eps ==>
              Inside(Along(M, d, t), ring) != Inside(Along(M, d, -t), ring)
  {
    var u, v := ring[k - 1], ring[k];
    var M, d := Midpoint(u, v), Normal(u, v);
    forall i | 0 < i < |ring| && i != k ensures !OnSegment(M, ring[i - 1], ring[i]) {
      MiddleIsOnNoOtherEdge(ring, k, i);
    }
    assert u != v by {
      EdgeOf(ring, k);
    }
    hide *;
    eps := RoomAround(ring, k, |ring|, M, d);
    forall t: real | 0.0 < t <= eps ensures Inside(Along(M, d, t), ring) != Inside(Along(M, d, -t), ring) {
      CrossesOwnEdge(u, v, t);
      CrossingSeparates(ring, k, M, d, eps, t);
    }
  }

  lemma CrossingSeparates(ring: Ring, k: nat, M: Point, d: Point, eps: real, t: real)
    requires Closed(ring) && 0 < k < |ring| && 0.0 < t <= eps
    requires forall i :: 0 < i < |ring| && i != k ==> Clear(M, d, eps, ring[i - 1], ring[i])
    requires Generic(Along(M, d, -t), Along(M, d, t), ring[k - 1], ring[k])
    requires SharePoint(ring[k - 1], ring[k], Along(M, d, -t), Along(M, d, t))
    ensures Inside(Along(M, d, t), ring) != Inside(Along(M, d, -t), ring)
  {
    var P, Q := Along(M, d, -t), Along(M, d, t);
    hide Closed, Clear, Generic, SharePoint, Along, Inside, Meetings;
    forall i | 0 < i < |ring|
      ensures Generic(P, Q, ring[i - 1], ring[i]) && (SharePoint(ring[i - 1], ring[i], P, Q) <==> i == k)
    {
      if i != k {
        MissesOtherEdge(M, d, eps, t, ring[i - 1], ring[i]);
      }
    }
    OneMeeting(P, Q, ring, k, |ring|);
    CrossingRule(P, Q, ring);
  }

  /** An accepted ring encloses something. */
  lemma AcceptedRingHasInside(ring: RawRing)
    requires Acceptable(ring)
    ensures exists p :: Inside(p, Points(ring.points))
  {
    var points := Points(ring.points);
    AcceptedRingsAreClosed(ring);
    var eps := EdgeSeparates(points, 1);
    var M, d := Midpoint(points[0], points[1]), Normal(points[0], points[1]);
    hide Inside, Along, Midpoint, Normal;
    assert Inside(Along(M, d, eps), points) || Inside(Along(M, d, -eps), points);
  }
}
