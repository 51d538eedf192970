/** Validation of a submitted no-fly ring: in range, closed, and a simple polygon. */
module GeofenceValidation {
  import opened Geometry
  import EvenOdd
  import opened SharedTypes

  /** An element of the submitted ring: a finite [lon, lat] pair or anything else. */
  datatype RawPoint = NotAFinitePair | Pair(lon: real, lat: real)

  /** The submitted value: an array or anything else. */
  datatype RawRing = NotAnArray | Items(points: seq<RawPoint>)

  datatype GeofenceError =
    | MustBeArray
    | TooFewPoints
    | MalformedPoint(index: nat)
    | LonOutOfRange(index: nat)
    | LatOutOfRange(index: nat)
    | NotClosed
    | SelfIntersecting

  // ----- the code's self-intersection test -----

  /** Edge k of the cyclic vertex list runs from vertex k to the next one. */
  function EdgeStart(vertices: seq<Point>, k: nat): Point
    requires |vertices| > 0
  {
    vertices[k % |vertices|]
  }

  function EdgeEnd(vertices: seq<Point>, k: nat): Point
    requires |vertices| > 0
  {
    vertices[(k + 1) % |vertices|]
  }

  predicate Adjacent(n: nat, i: nat, j: nat) {
    j == i + 1 || (i == 0 && j == n - 1)
  }

  /** The first coinciding pair of end points, in the code's order of comparison. */
  function SharedEndpoint(a1: Point, a2: Point, b1: Point, b2: Point): Option<Point> {
    if a1 == b1 then Some(a1)
    else if a1 == b2 then Some(a1)
    else if a2 == b1 then Some(a2)
    else if a2 == b2 then Some(a2)
    else None
  }

  predicate CollinearOverlapBeyondPoint(a1: Point, a2: Point, b1: Point, b2: Point, shared: Point) {
    var otherA := if a1 == shared then a2 else a1;
    var otherB := if b1 == shared then b2 else b1;
    || otherA == otherB
    || PointStrictlyOnSegment(otherA, b1, b2)
    || PointStrictlyOnSegment(otherB, a1, a2)
  }

  predicate PointStrictlyOnSegment(p: Point, a: Point, b: Point) {
    if Orientation(a, b, p) != 0.0 then false
    else
      var within :=
        && p.x > Min(a.x, b.x) && p.x < Max(a.x, b.x)
        && p.y >= Min(a.y, b.y) && p.y <= Max(a.y, b.y);
      var withinVertical :=
        && p.y > Min(a.y, b.y) && p.y < Max(a.y, b.y)
        && p.x >= Min(a.x, b.x) && p.x <= Max(a.x, b.x);
      within || withinVertical
  }

  /** The verdict of the loop body on edges i < j. */
  predicate BadPair(vertices: seq<Point>, i: nat, j: nat)
    requires |vertices| > 0
  {
    var a1, a2 := EdgeStart(vertices, i), EdgeEnd(vertices, i);
    var b1, b2 := EdgeStart(vertices, j), EdgeEnd(vertices, j);
    && SegmentsIntersect(a1, a2, b1, b2)
    && (!Adjacent(|vertices|, i, j) || Folds(a1, a2, b1, b2))
  }

  predicate Folds(a1: Point, a2: Point, b1: Point, b2: Point) {
    var shared := SharedEndpoint(a1, a2, b1, b2);
    shared.None? || CollinearOverlapBeyondPoint(a1, a2, b1, b2, shared.value)
  }

  method IsSelfIntersecting(ring: Ring) returns (bad: bool)
    ensures |ring| < 4 ==> !bad
    ensures |ring| >= 4 ==> (bad <==> !SimpleCycle(ring[..|ring| - 1]))
  {
    var vertices := if |ring| == 0 then [] else ring[..|ring| - 1];
    var n := |vertices|;
    if n < 3 {
      return false;
    }
    SimpleIffNoBadPair(vertices);
    var i := 0;
    while i < n
      invariant 0 <= i <= n
      invariant forall k, l :: 0 <= k < i && k < l < n ==> !BadPair(vertices, k, l)
    {
      var j := i + 1;
      while j < n
        invariant i < j <= n
        invariant forall l :: i < l < j ==> !BadPair(vertices, i, l)
      {
        if BadPair(vertices, i, j) {
          return true;
        }
        j := j + 1;
      }
      i := i + 1;
    }
    return false;
  }

  // ----- simple polygons as point sets -----

  /** A cyclic vertex list whose edges have positive length, meet their neighbours in the common vertex
      only, and do not touch any other edge. The neighbours of an edge are the next one and the one before, the first
      and the last edge included. */
  ghost predicate SimpleCycle(vertices: seq<Point>) {
    && |vertices| >= 3
    && (forall i :: 0 <= i < |vertices| ==> EdgeStart(vertices, i) != EdgeEnd(vertices, i))
    && (forall i, j :: 0 <= i < j < |vertices| && j != i + 1 && !(i == 0 && j == |vertices| - 1) ==>
          Disjoint(vertices, i, j))
    && (forall i :: 0 <= i < |vertices| ==>
          OnlyVertexShared(EdgeStart(vertices, i), EdgeEnd(vertices, i), EdgeEnd(vertices, i + 1)))
  }

  ghost predicate Disjoint(vertices: seq<Point>, i: nat, j: nat)
    requires |vertices| > 0
  {
    !SharePoint(EdgeStart(vertices, i), EdgeEnd(vertices, i), EdgeStart(vertices, j), EdgeEnd(vertices, j))
  }

  /** The edges ab and bc have no common point but b. */
  ghost predicate OnlyVertexShared(a: Point, b: Point, c: Point) {
    forall p :: OnSegment(p, a, b) && OnSegment(p, b, c) ==> p == b
  }

  /** The strict test accepts the points of the segment other than its ends. */
  lemma StrictlyOnSegmentIff(p: Point, a: Point, b: Point)
    ensures PointStrictlyOnSegment(p, a, b) <==> OnSegment(p, a, b) && p != a && p != b
  {
    OnSegmentIff(p, a, b);
    if Orientation(a, b, p) == 0.0 && WithinBoundingBox(a, b, p) && p != a && p != b {
      CollinearAtEnd(p, a, b);
    }
  }

  lemma CollinearAtEnd(p: Point, a: Point, b: Point)
    requires Orientation(a, b, p) == 0.0
    ensures a.x != b.x && p.x == a.x ==> p == a
    ensures a.x != b.x && p.x == b.x ==> p == b
  {
    if a.x != b.x && p.x == a.x {
      TimesSign(b.x - a.x, p.y - a.y);
      assert Orientation(a, b, p) == Times(b.x - a.x, p.y - a.y);
    }
    if a.x != b.x && p.x == b.x {
      TimesSign(b.x - a.x, p.y - b.y);
      assert Orientation(a, b, p) == Times(b.x - a.x, p.y - b.y);
    }
  }

  /** Two edges that share a vertex and another point run along each other. */
  lemma SecondCommonPoint(a: Point, b: Point, c: Point, p: Point)
    requires a != b && b != c && p != b
    requires OnSegment(p, b, a) && OnSegment(p, b, c)
    ensures OnSegment(a, b, c) || OnSegment(c, b, a)
  {
    hide Times, At, Orientation;
    var s: real :| 0.0 <= s <= 1.0 && p == At(b, a, s);
    var t: real :| 0.0 <= t <= 1.0 && p == At(b, c, t);
    AtZero(b, a);
    AtZero(b, c);
    var r := OnSameLine(a, b, c, p, t);
    AtOfAt(b, a, 0.0, r, t);
    ParameterUnique(b, a, s, Times(t, r - 0.0));
    TimesSign(t, r);
    if r > 1.0 {
      var q := Fraction(1.0, r);
      AtOfAt(b, a, 0.0, r, q);
      AtOne(b, a);
      assert a == At(b, c, q);
    }
  }

  lemma AtOne(c: Point, d: Point)
    ensures At(c, d, 1.0) == d
  {
    TimesOne(d.x - c.x);
    TimesOne(d.y - c.y);
  }

  lemma OnSameLine(a: Point, b: Point, c: Point, p: Point, t: real) returns (r: real)
    requires a != b && p != b && OnSegment(p, b, a) && p == At(b, c, t)
    ensures c == At(b, a, r)
  {
    hide Times, At, Orientation;
    AtZero(b, c);
    SegmentPointsInBox(p, b, a);
    EndsAreOnSegment(b, a);
    SegmentPointsInBox(b, b, a);
    OrientationAffine(b, a, b, c, t);
    TimesSign(t, Orientation(b, a, c) - Orientation(b, a, b));
    r := OnLine(b, a, c);
  }

  /** When the two edges have positive length, the code's fold test says they share more than the vertex. */
  lemma FoldMeansOverlap(a: Point, b: Point, c: Point)
    requires a != b && b != c
    ensures (a == c || PointStrictlyOnSegment(a, b, c) || PointStrictlyOnSegment(c, a, b))
       <==> !OnlyVertexShared(a, b, c)
  {
    hide OnSegment, PointStrictlyOnSegment;
    StrictlyOnSegmentIff(a, b, c);
    StrictlyOnSegmentIff(c, a, b);
    EndsAreOnSegment(a, b);
    EndsAreOnSegment(b, c);
    OnSegmentSwaps(c, a, b);
    if p :| OnSegment(p, a, b) && OnSegment(p, b, c) && p != b {
      OnSegmentSwaps(p, a, b);
      SecondCommonPoint(a, b, c, p);
    }
  }

  /** The same statement for the two orders in which the loops present a pair of adjacent edges. */
  lemma FoldsIff(a: Point, b: Point, c: Point)
    requires a != b && b != c
    ensures Folds(a, b, b, c) <==> !OnlyVertexShared(a, b, c)
    ensures Folds(b, c, a, b) <==> !OnlyVertexShared(a, b, c)
  {
    hide PointStrictlyOnSegment, OnlyVertexShared;
    FoldMeansOverlap(a, b, c);
    StrictlyOnSegmentIff(a, b, c);
    StrictlyOnSegmentIff(c, a, b);
  }

  lemma AdjacentMeet(a: Point, b: Point, c: Point)
    ensures SegmentsIntersect(a, b, b, c) && SegmentsIntersect(b, c, a, b)
  {
    hide OnSegment, SegmentsIntersect;
    EndsAreOnSegment(a, b);
    EndsAreOnSegment(b, c);
    SegmentsIntersectIffSharePoint(a, b, b, c);
    SegmentsIntersectIffSharePoint(b, c, a, b);
  }

  /** An adjacent pair is bad exactly when its edges share more than the vertex. */
  lemma AdjacentPairBad(vertices: seq<Point>, i: nat)
    requires |vertices| >= 3 && i < |vertices|
    requires EdgeStart(vertices, i) != EdgeEnd(vertices, i) && EdgeStart(vertices, i + 1) != EdgeEnd(vertices, i + 1)
    ensures !OnlyVertexShared(EdgeStart(vertices, i), EdgeEnd(vertices, i), EdgeEnd(vertices, i + 1))
       <==> if i + 1 < |vertices| then BadPair(vertices, i, i + 1) else BadPair(vertices, 0, i)
  {
    hide EdgeStart, EdgeEnd, OnlyVertexShared, BadPair;
    NextEdge(vertices, i);
    FoldsIff(EdgeStart(vertices, i), EdgeEnd(vertices, i), EdgeEnd(vertices, i + 1));
    if i + 1 < |vertices| {
      ConsecutivePairBad(vertices, i);
    } else {
      ClosingPairBad(vertices, i);
    }
  }

  lemma ConsecutivePairBad(vertices: seq<Point>, i: nat)
    requires |vertices| >= 3 && i + 1 < |vertices| && EdgeStart(vertices, i + 1) == EdgeEnd(vertices, i)
    ensures BadPair(vertices, i, i + 1)
       <==> Folds(EdgeStart(vertices, i), EdgeEnd(vertices, i), EdgeEnd(vertices, i), EdgeEnd(vertices, i + 1))
  {
    hide EdgeStart, EdgeEnd, SegmentsIntersect, Folds;
    AdjacentMeet(EdgeStart(vertices, i), EdgeEnd(vertices, i), EdgeEnd(vertices, i + 1));
  }

  lemma ClosingPairBad(vertices: seq<Point>, i: nat)
    requires |vertices| >= 3 && i + 1 == |vertices|
    requires EdgeStart(vertices, 0) == EdgeEnd(vertices, i) && EdgeEnd(vertices, 0) == EdgeEnd(vertices, i + 1)
    ensures BadPair(vertices, 0, i)
       <==> Folds(EdgeEnd(vertices, i), EdgeEnd(vertices, i + 1), EdgeStart(vertices, i), EdgeEnd(vertices, i))
  {
    hide EdgeStart, EdgeEnd, SegmentsIntersect, Folds;
    AdjacentMeet(EdgeStart(vertices, i), EdgeEnd(vertices, i), EdgeEnd(vertices, i + 1));
  }

  lemma DistantPairBad(vertices: seq<Point>, i: nat, j: nat)
    requires |vertices| >= 3 && i < j < |vertices| && !Adjacent(|vertices|, i, j)
    ensures BadPair(vertices, i, j) <==> !Disjoint(vertices, i, j)
  {
    SegmentsIntersectIffSharePoint(EdgeStart(vertices, i), EdgeEnd(vertices, i),
                                   EdgeStart(vertices, j), EdgeEnd(vertices, j));
  }

  ghost predicate NoBadPair(vertices: seq<Point>)
    requires |vertices| > 0
  {
    forall i, j :: 0 <= i < j < |vertices| ==> !BadPair(vertices, i, j)
  }

  /** In a triangle a zero-length edge makes the other two fold onto each other. */
  lemma TriangleZeroEdge(vertices: seq<Point>, k: nat)
    requires |vertices| == 3 && k < 3 && EdgeStart(vertices, k) == EdgeEnd(vertices, k)
    ensures !NoBadPair(vertices)
  {
    hide SegmentsIntersect, PointStrictlyOnSegment;
    var p, q, r := vertices[0], vertices[1], vertices[2];
    AdjacentMeet(p, q, r);
    AdjacentMeet(q, r, p);
    AdjacentMeet(r, p, q);
    assert BadPair(vertices, 0, 1) <==> Folds(p, q, q, r);
    assert BadPair(vertices, 1, 2) <==> Folds(q, r, r, p);
    assert BadPair(vertices, 0, 2) <==> Folds(p, q, r, p);
  }

  lemma EdgeEnds(vertices: seq<Point>, k: nat)
    requires k < |vertices|
    ensures EdgeStart(vertices, k) == vertices[k]
    ensures EdgeEnd(vertices, k) == vertices[if k == |vertices| - 1 then 0 else k + 1]
  {
  }

  /** With four or more edges a zero-length edge makes its two neighbours touch. */
  lemma ZeroEdge(vertices: seq<Point>, k: nat)
    requires |vertices| >= 4 && k < |vertices| && EdgeStart(vertices, k) == EdgeEnd(vertices, k)
    ensures !NoBadPair(vertices)
  {
    hide EdgeStart, EdgeEnd, OnSegment, BadPair;
    var n := |vertices|;
    var before, after := if k == 0 then n - 1 else k - 1, if k == n - 1 then 0 else k + 1;
    EdgeEnds(vertices, before);
    EdgeEnds(vertices, k);
    EdgeEnds(vertices, after);
    EndsAreOnSegment(EdgeStart(vertices, before), EdgeEnd(vertices, before));
    EndsAreOnSegment(EdgeStart(vertices, after), EdgeEnd(vertices, after));
    if before < after {
      DistantPairBad(vertices, before, after);
      assert BadPair(vertices, before, after);
    } else {
      DistantPairBad(vertices, after, before);
      assert BadPair(vertices, after, before);
    }
  }

  lemma NoBadPairHasPositiveEdges(vertices: seq<Point>, k: nat)
    requires |vertices| >= 3 && k < |vertices| && NoBadPair(vertices)
    ensures EdgeStart(vertices, k) != EdgeEnd(vertices, k)
  {
    if EdgeStart(vertices, k) == EdgeEnd(vertices, k) {
      if |vertices| == 3 {
        TriangleZeroEdge(vertices, k);
      } else {
        ZeroEdge(vertices, k);
      }
    }
  }

  /** The pairwise test finds nothing exactly on simple polygons. */
  lemma SimpleIffNoBadPair(vertices: seq<Point>)
    requires |vertices| >= 3
    ensures SimpleCycle(vertices) <==> NoBadPair(vertices)
  {
    if NoBadPair(vertices) {
      NoBadPairIsSimple(vertices);
    }
    if SimpleCycle(vertices) {
      SimpleHasNoBadPair(vertices);
    }
  }

  lemma NextEdge(vertices: seq<Point>, i: nat)
    requires |vertices| >= 3 && i < |vertices|
    ensures EdgeStart(vertices, i + 1) == EdgeEnd(vertices, i)
    ensures i + 1 == |vertices| ==> EdgeStart(vertices, i + 1) == EdgeStart(vertices, 0)
                                    && EdgeEnd(vertices, i + 1) == EdgeEnd(vertices, 0)
  {
  }

  lemma NoBadPairIsSimple(vertices: seq<Point>)
    requires |vertices| >= 3 && NoBadPair(vertices)
    ensures SimpleCycle(vertices)
  {
    hide BadPair, OnlyVertexShared, Disjoint, EdgeStart, EdgeEnd;
    forall i | 0 <= i < |vertices| ensures EdgeStart(vertices, i) != EdgeEnd(vertices, i) {
      NoBadPairHasPositiveEdges(vertices, i);
    }
    forall i, j | 0 <= i < j < |vertices| && !Adjacent(|vertices|, i, j) ensures Disjoint(vertices, i, j) {
      DistantPairBad(vertices, i, j);
    }
    forall i | 0 <= i < |vertices|
      ensures OnlyVertexShared(EdgeStart(vertices, i), EdgeEnd(vertices, i), EdgeEnd(vertices, i + 1))
    {
      NextEdge(vertices, i);
      NoBadPairHasPositiveEdges(vertices, i);
      NoBadPairHasPositiveEdges(vertices, if i + 1 < |vertices| then i + 1 else 0);
      AdjacentPairBad(vertices, i);
    }
  }

  lemma SimpleHasNoBadPair(vertices: seq<Point>)
    requires SimpleCycle(vertices)
    ensures NoBadPair(vertices)
  {
    hide BadPair, OnlyVertexShared, Disjoint, EdgeStart, EdgeEnd;
    forall i, j | 0 <= i < j < |vertices| ensures !BadPair(vertices, i, j) {
      if !Adjacent(|vertices|, i, j) {
        DistantPairBad(vertices, i, j);
      } else {
        var k := if j == i + 1 then i else j;
        NextEdge(vertices, k);
        assert EdgeStart(vertices, 0) != EdgeEnd(vertices, 0);
        AdjacentPairBad(vertices, k);
      }
    }
  }

  // ----- validation -----

  const LAT_MIN := -90.0
  const LAT_MAX := 90.0
  const LON_MIN := -180.0
  const LON_MAX := 180.0

  ghost predicate PointOk(p: RawPoint) {
    p.Pair? && -180.0 <= p.lon <= 180.0 && -90.0 <= p.lat <= 90.0
  }

  function Points(raw: seq<RawPoint>): (ring: Ring)
    requires forall i :: 0 <= i < |raw| ==> raw[i].Pair?
    ensures |ring| == |raw|
    ensures forall i :: 0 <= i < |raw| ==> ring[i] == Point(raw[i].lon, raw[i].lat)
  {
    if raw == [] then [] else Points(raw[..|raw| - 1]) + [Point(raw[|raw| - 1].lon, raw[|raw| - 1].lat)]
  }

  /** What an acceptable ring is: in range, closed, at least four points, a simple polygon. */
  ghost predicate Acceptable(ring: RawRing) {
    && ring.Items?
    && |ring.points| >= 4
    && (forall i :: 0 <= i < |ring.points| ==> PointOk(ring.points[i]))
    && ring.points[0] == ring.points[|ring.points| - 1]
    && SimpleCycle(Points(ring.points)[..|ring.points| - 1])
  }

  /** The error is about the shape of the submission, as far as its first n points go. */
  ghost predicate Malformed(points: seq<RawPoint>, n: nat, e: GeofenceError)
    requires n <= |points|
  {
    match e
    case TooFewPoints => |points| < 4
    case MalformedPoint(i) => i < n && !points[i].Pair?
    case LonOutOfRange(i) => i < n && points[i].Pair? && !(-180.0 <= points[i].lon <= 180.0)
    case LatOutOfRange(i) => i < n && points[i].Pair? && !(-90.0 <= points[i].lat <= 90.0)
    case _ => false
  }

  /** What each error means. Structure is only looked at when every point is in range. */
  ghost predicate Justified(ring: RawRing, e: GeofenceError) {
    if ring.NotAnArray? then e == MustBeArray
    else
      var points := ring.points;
      if |points| < 4 || exists i :: 0 <= i < |points| && !PointOk(points[i]) then Malformed(points, |points|, e)
      else if points[0] != points[|points| - 1] then e == NotClosed
      else !SimpleCycle(Points(points)[..|points| - 1]) && e == SelfIntersecting
  }

  /** A submitted ring is accepted (no errors) exactly when it is acceptable. */
  method ValidateGeofencePolygon(ring: RawRing) returns (errors: seq<GeofenceError>)
    ensures errors == [] <==> Acceptable(ring)
    ensures forall e :: e in errors <==> Justified(ring, e)
  {
    errors := [];
    if ring.NotAnArray? {
      return [MustBeArray];
    }
    if |ring.points| < 4 {
      errors := errors + [TooFewPoints];
    }
    for index := 0 to |ring.points|
      invariant forall e :: e in errors <==> Malformed(ring.points, index, e)
      invariant errors == [] <==>
        |ring.points| >= 4 && forall k :: 0 <= k < index ==> PointOk(ring.points[k])
    {
      match ring.points[index]
      case NotAFinitePair =>
        errors := errors + [MalformedPoint(index)];
      case Pair(lon, lat) =>
        if lon < LON_MIN || lon > LON_MAX {
          errors := errors + [LonOutOfRange(index)];
        }
        if lat < LAT_MIN || lat > LAT_MAX {
          errors := errors + [LatOutOfRange(index)];
        }
    }
    if |errors| > 0 {
      return;
    }
    var points := Points(ring.points);
    if points[0] != points[|points| - 1] {
      errors := errors + [NotClosed];
      return;
    }
    var bad := IsSelfIntersecting(points);
    if bad {
      errors := errors + [SelfIntersecting];
    }
  }

  /** Every accepted ring is closed, so the conflict guarantees apply to it. */
  lemma AcceptedRingsAreClosed(ring: RawRing)
    requires Acceptable(ring)
    ensures EvenOdd.Closed(Points(ring.points))
  {
  }
}
