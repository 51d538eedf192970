/** Planar geometry of no-fly zones: the exact segment test, the even-odd test and conflict detection,
    each tied to the point sets it is meant to decide. Coordinates are exact reals. */
module Geometry {

  datatype Point = Point(x: real, y: real)

  datatype Segment = Segment(start: Point, end: Point)

  type Ring = seq<Point>

  // ----- the code's tests -----

  /** Twice the signed area of the triangle a, b, c. */
  function Orientation(a: Point, b: Point, c: Point): real {
    (b.x - a.x) * (c.y - a.y) - (b.y - a.y) * (c.x - a.x)
  }

  function Sign(value: real): int {
    if value > 0.0 then 1 else if value < 0.0 then -1 else 0
  }

  function Min(a: real, b: real): real {
    if a <= b then a else b
  }

  function Max(a: real, b: real): real {
    if a <= b then b else a
  }

  predicate WithinBoundingBox(a: Point, b: Point, p: Point) {
    && p.x >= Min(a.x, b.x)
    && p.x <= Max(a.x, b.x)
    && p.y >= Min(a.y, b.y)
    && p.y <= Max(a.y, b.y)
  }

  predicate SegmentsIntersect(p1: Point, p2: Point, p3: Point, p4: Point) {
    var d1 := Sign(Orientation(p3, p4, p1));
    var d2 := Sign(Orientation(p3, p4, p2));
    var d3 := Sign(Orientation(p1, p2, p3));
    var d4 := Sign(Orientation(p1, p2, p4));
    if d1 != d2 && d3 != d4 then true
    else if d1 == 0 && WithinBoundingBox(p3, p4, p1) then true
    else if d2 == 0 && WithinBoundingBox(p3, p4, p2) then true
    else if d3 == 0 && WithinBoundingBox(p1, p2, p3) then true
    else if d4 == 0 && WithinBoundingBox(p1, p2, p4) then true
    else false
  }

  // ----- what the tests mean -----

  /** The product, under a name that proofs can hide: with it hidden, only linear facts remain. */
  function Times(a: real, b: real): real {
    a * b
  }

  /** The point reached after fraction t of the way from a to b. */
  function At(a: Point, b: Point, t: real): Point {
    Point(a.x + Times(t, b.x - a.x), a.y + Times(t, b.y - a.y))
  }

  /** p is a point of the closed segment from a to b. */
  ghost predicate OnSegment(p: Point, a: Point, b: Point) {
    exists t: real :: 0.0 <= t <= 1.0 && p == At(a, b, t)
  }

  /** The closed segments ab and cd have a point in common. */
  ghost predicate SharePoint(a: Point, b: Point, c: Point, d: Point) {
    exists p :: OnSegment(p, a, b) && OnSegment(p, c, d)
  }

  // ----- products and fractions -----

  lemma TimesSign(a: real, b: real)
    ensures a >= 0.0 && b >= 0.0 ==> Times(a, b) >= 0.0
    ensures a >= 0.0 && b <= 0.0 ==> Times(a, b) <= 0.0
    ensures a > 0.0 && b > 0.0 ==> Times(a, b) > 0.0
    ensures a > 0.0 && b < 0.0 ==> Times(a, b) < 0.0
    ensures a < 0.0 && b > 0.0 ==> Times(a, b) < 0.0
    ensures a < 0.0 && b < 0.0 ==> Times(a, b) > 0.0
  {
  }

  lemma TimesMinus(a: real, b: real, d: real)
    ensures Times(a - b, d) == Times(a, d) - Times(b, d)
  {
  }

  lemma TimesOne(d: real)
    ensures Times(1.0, d) == d && Times(0.0, d) == 0.0 && Times(d, 0.0) == 0.0
  {
  }

  /** A fraction of d stays between 0 and d. */
  lemma Scaled(t: real, d: real)
    requires 0.0 <= t <= 1.0
    ensures d >= 0.0 ==> 0.0 <= Times(t, d) <= d
    ensures d <= 0.0 ==> d <= Times(t, d) <= 0.0
  {
    hide Times;
    TimesSign(t, d);
    TimesSign(1.0 - t, d);
    TimesMinus(1.0, t, d);
    TimesOne(d);
  }

  lemma Quotient(n: real, d: real) returns (q: real)
    requires d != 0.0
    ensures Times(q, d) == n
  {
    q := n / d;
  }

  lemma UniqueFactor(d: real, a: real, b: real)
    requires d != 0.0 && Times(a, d) == Times(b, d)
    ensures a == b
  {
    hide Times;
    TimesMinus(a, b, d);
    TimesSign(a - b, d);
  }

  lemma WithinUnit(t: real, d: real, m: real)
    requires d != 0.0 && Times(t, d) == m
    requires d > 0.0 ==> 0.0 <= m <= d
    requires d < 0.0 ==> d <= m <= 0.0
    ensures 0.0 <= t <= 1.0
  {
    hide Times;
    TimesSign(t, d);
    TimesSign(t - 1.0, d);
    TimesMinus(t, 1.0, d);
    TimesOne(d);
  }

  lemma Fraction(n: real, d: real) returns (q: real)
    requires d != 0.0
    requires d > 0.0 ==> 0.0 <= n <= d
    requires d < 0.0 ==> d <= n <= 0.0
    ensures 0.0 <= q <= 1.0 && Times(q, d) == n
  {
    hide Times;
    q := Quotient(n, d);
    WithinUnit(q, d, n);
  }

  // ----- lines -----

  lemma AtIsCollinear(a: Point, b: Point, t: real)
    ensures Orientation(a, b, At(a, b, t)) == 0.0
  {
    CrossOfMultiple(b.x - a.x, b.y - a.y, t);
  }

  lemma CrossOfMultiple(dx: real, dy: real, t: real)
    ensures dx * Times(t, dy) == dy * Times(t, dx)
  {
  }

  lemma Slope(dx: real, dy: real, px: real, py: real, t: real)
    requires dx != 0.0 && Times(t, dx) == px && dx * py == dy * px
    ensures py == Times(t, dy)
  {
    CrossOfMultiple(dx, dy, t);
    assert dx * py == dx * Times(t, dy);
    UniqueFactor(dx, py, Times(t, dy));
  }

  /** A point on the line through two different points is some At of them. */
  lemma OnLine(c: Point, d: Point, a: Point) returns (t: real)
    requires c != d && Orientation(c, d, a) == 0.0
    ensures a == At(c, d, t)
  {
    hide Times;
    var dx, dy := d.x - c.x, d.y - c.y;
    if dx != 0.0 {
      t := Quotient(a.x - c.x, dx);
      Slope(dx, dy, a.x - c.x, a.y - c.y, t);
    } else {
      t := Quotient(a.y - c.y, dy);
      Slope(dy, dx, a.y - c.y, a.x - c.x, t);
    }
  }

  lemma SegmentPointsInBox(p: Point, a: Point, b: Point)
    requires OnSegment(p, a, b)
    ensures Orientation(a, b, p) == 0.0 && WithinBoundingBox(a, b, p)
  {
    hide Times, Orientation;
    var t: real :| 0.0 <= t <= 1.0 && p == At(a, b, t);
    AtIsCollinear(a, b, t);
    Scaled(t, b.x - a.x);
    Scaled(t, b.y - a.y);
  }

  lemma CollinearInBoxIsOnSegment(p: Point, a: Point, b: Point)
    requires Orientation(a, b, p) == 0.0 && WithinBoundingBox(a, b, p)
    ensures OnSegment(p, a, b)
  {
    hide Times, Orientation;
    if a == b {
      TimesOne(0.0);
      assert p == At(a, b, 0.0);
    } else {
      var t := OnLine(a, b, p);
      if b.x != a.x {
        WithinUnit(t, b.x - a.x, p.x - a.x);
      } else {
        WithinUnit(t, b.y - a.y, p.y - a.y);
      }
    }
  }

  /** A point is on a closed segment exactly when it is collinear with it and inside its box. */
  lemma OnSegmentIff(p: Point, a: Point, b: Point)
    ensures OnSegment(p, a, b) <==> Orientation(a, b, p) == 0.0 && WithinBoundingBox(a, b, p)
  {
    hide Times, Orientation;
    if OnSegment(p, a, b) {
      SegmentPointsInBox(p, a, b);
    }
    if Orientation(a, b, p) == 0.0 && WithinBoundingBox(a, b, p) {
      CollinearInBoxIsOnSegment(p, a, b);
    }
  }

  lemma OnSegmentSwaps(p: Point, a: Point, b: Point)
    ensures OnSegment(p, a, b) <==> OnSegment(p, b, a)
  {
    hide Times;
    OnSegmentIff(p, a, b);
    OnSegmentIff(p, b, a);
    assert Orientation(b, a, p) == -Orientation(a, b, p);
  }

  lemma EndsAreOnSegment(a: Point, b: Point)
    ensures OnSegment(a, a, b) && OnSegment(b, a, b)
  {
    TimesOne(b.x - a.x);
    TimesOne(b.y - a.y);
    assert a == At(a, b, 0.0);
    assert b == At(a, b, 1.0);
  }

  /** Orientation against a fixed line is affine along a segment. */
  lemma OrientationAffine(c: Point, d: Point, a: Point, b: Point, t: real)
    ensures Orientation(c, d, At(a, b, t))
         == Orientation(c, d, a) + Times(t, Orientation(c, d, b) - Orientation(c, d, a))
  {
    var ux, uy := d.x - c.x, d.y - c.y;
    var ex, ey := b.x - a.x, b.y - a.y;
    assert ux * (a.y + t * ey - c.y) == ux * (a.y - c.y) + t * (ux * ey);
    assert uy * (a.x + t * ex - c.x) == uy * (a.x - c.x) + t * (uy * ex);
    assert Orientation(c, d, b) - Orientation(c, d, a) == ux * ey - uy * ex;
    assert t * (ux * ey - uy * ex) == t * (ux * ey) - t * (uy * ex);
  }

  // ----- the segment test decides SharePoint -----

  /** Cramer's rule for the crossing point of two lines, before division. */
  lemma Cramer(a: Point, b: Point, c: Point, d: Point)
    ensures var D := Orientation(c, d, a) - Orientation(c, d, b);
            && Orientation(a, b, d) - Orientation(a, b, c) == D
            && D * (a.x - c.x) + Orientation(c, d, a) * (b.x - a.x) + Orientation(a, b, c) * (d.x - c.x) == 0.0
            && D * (a.y - c.y) + Orientation(c, d, a) * (b.y - a.y) + Orientation(a, b, c) * (d.y - c.y) == 0.0
  {
    var ux, uy := b.x - a.x, b.y - a.y;
    var vx, vy := d.x - c.x, d.y - c.y;
    var wx, wy := a.x - c.x, a.y - c.y;
    var o1, o3 := vx * wy - vy * wx, uy * wx - ux * wy;
    var D := ux * vy - uy * vx;
    assert Orientation(c, d, a) == o1;
    assert Orientation(a, b, c) == o3;
    assert Orientation(c, d, a) - Orientation(c, d, b) == D;
    assert Orientation(a, b, d) - Orientation(a, b, c) == D;
    assert D * wx + o1 * ux + o3 * vx == 0.0;
    assert D * wy + o1 * uy + o3 * vy == 0.0;
  }

  lemma CramerSolves(D: real, s: real, t: real, a: real, u: real, c: real, v: real)
    requires D != 0.0
    requires D * (a - c) + Times(s, D) * u - Times(t, D) * v == 0.0
    ensures a + Times(s, u) == c + Times(t, v)
  {
    assert Times(s, D) * u == D * (s * u);
    assert Times(t, D) * v == D * (t * v);
    assert Times(a - c + s * u - t * v, D) == Times(0.0, D);
    UniqueFactor(D, a - c + s * u - t * v, 0.0);
  }

  /** When each segment straddles the line through the other, the lines cross inside both. */
  lemma ProperCrossing(a: Point, b: Point, c: Point, d: Point)
    requires Sign(Orientation(c, d, a)) != Sign(Orientation(c, d, b))
    requires Sign(Orientation(a, b, c)) != Sign(Orientation(a, b, d))
    ensures SharePoint(a, b, c, d)
  {
    hide Times, Orientation;
    var o1, o3 := Orientation(c, d, a), Orientation(a, b, c);
    var D := o1 - Orientation(c, d, b);
    Cramer(a, b, c, d);
    var s := Fraction(o1, D);
    var t := Fraction(-o3, D);
    CramerSolves(D, s, t, a.x, b.x - a.x, c.x, d.x - c.x);
    CramerSolves(D, s, t, a.y, b.y - a.y, c.y, d.y - c.y);
    assert At(a, b, s) == At(c, d, t);
    assert OnSegment(At(a, b, s), a, b) && OnSegment(At(a, b, s), c, d);
  }

  /** At composes: a fraction between two points of a line is a point of the same line. */
  lemma AtOfAt(c: Point, d: Point, i: real, j: real, s: real)
    ensures At(At(c, d, i), At(c, d, j), s) == At(c, d, i + Times(s, j - i))
  {
    hide Times;
    AtOfAtCoordinate(c.x, d.x - c.x, i, j, s);
    AtOfAtCoordinate(c.y, d.y - c.y, i, j, s);
  }

  lemma AtOfAtCoordinate(c: real, e: real, i: real, j: real, s: real)
    ensures (c + Times(i, e)) + Times(s, (c + Times(j, e)) - (c + Times(i, e)))
         == c + Times(i + Times(s, j - i), e)
  {
    assert (c + j * e) - (c + i * e) == (j - i) * e;
    assert s * ((j - i) * e) == (s * (j - i)) * e;
  }

  lemma ParameterUnique(c: Point, d: Point, s: real, t: real)
    requires c != d && At(c, d, s) == At(c, d, t)
    ensures s == t
  {
    hide Times;
    if d.x != c.x {
      UniqueFactor(d.x - c.x, s, t);
    } else {
      UniqueFactor(d.y - c.y, s, t);
    }
  }

  /** If a point between i and i + e is in [0,1] and neither end is, then 0 is between the ends. */
  lemma ZeroBetween(i: real, e: real, s: real) returns (r: real)
    requires 0.0 <= s <= 1.0 && 0.0 <= i + Times(s, e) <= 1.0
    requires !(0.0 <= i <= 1.0) && !(0.0 <= i + e <= 1.0)
    ensures 0.0 <= r <= 1.0 && i + Times(r, e) == 0.0
  {
    hide Times;
    Scaled(s, e);
    r := Fraction(-i, e);
  }

  /** Two overlapping segments on one line: an end point of one lies on the other. */
  lemma CollinearOverlap(a: Point, b: Point, c: Point, d: Point, p: Point)
    requires c != d && Orientation(c, d, a) == 0.0 && Orientation(c, d, b) == 0.0
    requires OnSegment(p, a, b) && OnSegment(p, c, d)
    ensures OnSegment(a, c, d) || OnSegment(b, c, d) || OnSegment(c, a, b)
  {
    hide Times, Orientation, At;
    var i := OnLine(c, d, a);
    var j := OnLine(c, d, b);
    var s: real :| 0.0 <= s <= 1.0 && p == At(a, b, s);
    var k: real :| 0.0 <= k <= 1.0 && p == At(c, d, k);
    AtOfAt(c, d, i, j, s);
    ParameterUnique(c, d, i + Times(s, j - i), k);
    if 0.0 <= i <= 1.0 {
      assert OnSegment(a, c, d);
    } else if 0.0 <= j <= 1.0 {
      assert OnSegment(b, c, d);
    } else {
      var r := ZeroBetween(i, j - i, s);
      AtOfAt(c, d, i, j, r);
      AtZero(c, d);
      assert c == At(a, b, r);
    }
  }

  lemma AtZero(c: Point, d: Point)
    ensures At(c, d, 0.0) == c
  {
    TimesOne(d.x - c.x);
    TimesOne(d.y - c.y);
  }

  /** If both ends of ab are on the same side of line cd, a common point forces collinearity. */
  lemma SameSideMeansCollinear(a: Point, b: Point, c: Point, d: Point, p: Point)
    requires Sign(Orientation(c, d, a)) == Sign(Orientation(c, d, b))
    requires OnSegment(p, a, b) && Orientation(c, d, p) == 0.0
    ensures Orientation(c, d, a) == 0.0 && Orientation(c, d, b) == 0.0
  {
    hide Times, Orientation, At;
    var s: real :| 0.0 <= s <= 1.0 && p == At(a, b, s);
    OrientationAffine(c, d, a, b, s);
    ConvexZero(Orientation(c, d, a), Orientation(c, d, b), s);
  }

  lemma ConvexZero(o1: real, o2: real, s: real)
    requires 0.0 <= s <= 1.0 && Sign(o1) == Sign(o2) && o1 + Times(s, o2 - o1) == 0.0
    ensures o1 == 0.0 && o2 == 0.0
  {
    hide Times;
    Scaled(s, o2 - o1);
  }

  lemma SharedPointIsDetected(a: Point, b: Point, c: Point, d: Point, p: Point)
    requires OnSegment(p, a, b) && OnSegment(p, c, d)
    requires Sign(Orientation(c, d, a)) == Sign(Orientation(c, d, b))
    ensures OnSegment(a, c, d) || OnSegment(b, c, d) || OnSegment(c, a, b)
  {
    hide Times, Orientation;
    SegmentPointsInBox(p, c, d);
    SameSideMeansCollinear(a, b, c, d, p);
    if c == d {
      assert p == c;
    } else {
      CollinearOverlap(a, b, c, d, p);
    }
  }

  /** The code's test is true exactly when the two closed segments have a common point. */
  lemma SegmentsIntersectIffSharePoint(a: Point, b: Point, c: Point, d: Point)
    ensures SegmentsIntersect(a, b, c, d) <==> SharePoint(a, b, c, d)
  {
    hide Times, Orientation, WithinBoundingBox, At;
    OnSegmentIff(a, c, d);
    OnSegmentIff(b, c, d);
    OnSegmentIff(c, a, b);
    OnSegmentIff(d, a, b);
    EndsAreOnSegment(a, b);
    EndsAreOnSegment(c, d);
    if SegmentsIntersect(a, b, c, d) {
      if Sign(Orientation(c, d, a)) != Sign(Orientation(c, d, b))
         && Sign(Orientation(a, b, c)) != Sign(Orientation(a, b, d)) {
        ProperCrossing(a, b, c, d);
      }
    }
    if SharePoint(a, b, c, d) {
      var p :| OnSegment(p, a, b) && OnSegment(p, c, d);
      if Sign(Orientation(c, d, a)) == Sign(Orientation(c, d, b)) {
        SharedPointIsDetected(a, b, c, d, p);
      } else if Sign(Orientation(a, b, c)) == Sign(Orientation(a, b, d)) {
        SharedPointIsDetected(c, d, a, b, p);
      }
    }
  }

  lemma SharePointSwaps(a: Point, b: Point, c: Point, d: Point)
    ensures SharePoint(a, b, c, d) <==> SharePoint(b, a, c, d)
    ensures SharePoint(a, b, c, d) <==> SharePoint(c, d, a, b)
    ensures SharePoint(a, b, c, d) <==> SharePoint(a, b, d, c)
  {
    hide OnSegment;
    forall p ensures OnSegment(p, a, b) <==> OnSegment(p, b, a) { OnSegmentSwaps(p, a, b); }
    forall p ensures OnSegment(p, c, d) <==> OnSegment(p, d, c) { OnSegmentSwaps(p, c, d); }
  }
}
