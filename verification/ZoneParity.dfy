/** The parity algebra of the ray cast, over all rings and points. */
module ZoneParity {
  import opened Wrappers
  import opened Zone

  // ---- one edge -----------------------------------------------------------------------------

  /** The crossing does not depend on the direction of the edge. */
  lemma CrossingSymmetric(a: Point, b: Point, p: Point)
    ensures Crosses(a, b, p) == Crosses(b, a, p)
  {
    if Straddles(a, b, p.y) {
      OnLine(a.x, a.y, b.x, b.y, p.y);
      OnLine(b.x, b.y, a.x, a.y, p.y);
      SameQuotient(CrossingX(a, b, p.y), CrossingX(b, a, p.y), b.y - a.y);
    }
  }

  /** The crossing abscissa, cleared of its denominator. */
  lemma OnLine(x0: real, y0: real, x1: real, y1: real, y: real)
    requires y0 != y1
    ensures (x0 + (y - y0) * (x1 - x0) / (y1 - y0)) * (y1 - y0) == x0 * (y1 - y0) + (y - y0) * (x1 - x0)
  {
    var n, d := (y - y0) * (x1 - x0), y1 - y0;
    assert n / d * d == n;
    assert (x0 + n / d) * d == x0 * d + n / d * d;
  }

  lemma SameQuotient(u: real, v: real, d: real)
    requires d != 0.0 && u * d == v * d
    ensures u == v
  {
    assert (u - v) * d == 0.0;
  }

  /** An edge crosses the line between its own ends. */
  lemma CrossingWithin(a: Point, b: Point, y: real, lo: real, hi: real)
    requires Straddles(a, b, y) && lo <= a.x <= hi && lo <= b.x <= hi
    ensures lo <= CrossingX(a, b, y) <= hi
  {
    var c, d, s := CrossingX(a, b, y), b.y - a.y, y - a.y;
    OnLine(a.x, a.y, b.x, b.y, y);
    assert c * d == a.x * (d - s) + b.x * s;
    if d > 0.0 {
      Weighted(c, a.x, d - s, b.x, s, lo, hi);
    } else {
      assert c * (-d) == a.x * (-(d - s)) + b.x * (-s);
      Weighted(c, a.x, -(d - s), b.x, -s, lo, hi);
    }
  }

  /** A weighted mean lies between bounds of what is averaged. */
  lemma Weighted(c: real, u: real, m: real, v: real, n: real, lo: real, hi: real)
    requires m >= 0.0 && n >= 0.0 && m + n > 0.0 && c * (m + n) == u * m + v * n
    requires lo <= u <= hi && lo <= v <= hi
    ensures lo <= c <= hi
  {
    WeightedOrder(lo, u, lo, v, m, n);
    WeightedOrder(u, hi, v, hi, m, n);
    assert lo * (m + n) == lo * m + lo * n && hi * (m + n) == hi * m + hi * n;
    Cancel(lo, c, m + n);
    Cancel(c, hi, m + n);
  }

  lemma WeightedOrder(u: real, u': real, v: real, v': real, m: real, n: real)
    requires m >= 0.0 && n >= 0.0 && u <= u' && v <= v'
    ensures u * m + v * n <= u' * m + v' * n
  {
    MulOrder(u, u', m);
    MulOrder(v, v', n);
  }

  lemma Cancel(u: real, v: real, d: real)
    requires d > 0.0 && u * d <= v * d
    ensures u <= v
  {
    assert u > v ==> (u - v) * d > 0.0;
  }

  lemma MulOrder(u: real, v: real, m: real)
    requires u <= v && m >= 0.0
    ensures u * m <= v * m
  {
    assert (v - u) * m >= 0.0;
  }

  // ---- paths --------------------------------------------------------------------------------

  /** Joining two paths adds the crossings of both and of the edge between them. */
  lemma {:induction false} PathJoin(s: seq<Point>, t: seq<Point>, p: Point)
    requires s != [] && t != []
    ensures PathOdd(s + t, p) == ((PathOdd(s, p) != PathOdd(t, p)) != Crosses(s[|s| - 1], t[0], p))
  {
    var n := |t| - 1;
    assert (s + t)[..|s + t| - 1] == s + t[..n];
    if n == 0 {
      assert s + t[..n] == s;
    } else {
      PathJoin(s, t[..n], p);
    }
  }

  /** Cutting a path at one of its vertices, which both parts keep. */
  lemma PathCut(s: seq<Point>, k: nat, p: Point)
    requires k < |s|
    ensures PathOdd(s, p) == (PathOdd(s[..k + 1], p) != PathOdd(s[k..], p))
  {
    if k == |s| - 1 {
      assert s[..k + 1] == s;
    } else {
      var rest := s[k + 1..];
      assert s == s[..k + 1] + rest && s[k..] == [s[k]] + rest;
      PathJoin(s[..k + 1], rest, p);
      PathJoin([s[k]], rest, p);
    }
  }

  function Reversed(s: seq<Point>): (r: seq<Point>)
    ensures |r| == |s|
  {
    if s == [] then [] else [s[|s| - 1]] + Reversed(s[..|s| - 1])
  }

  lemma {:induction false} ReversedEnds(s: seq<Point>)
    requires s != []
    ensures Reversed(s)[0] == s[|s| - 1] && Reversed(s)[|s| - 1] == s[0]
  {
    if |s| > 1 {
      ReversedEnds(s[..|s| - 1]);
    }
  }

  lemma {:induction false} PathReversed(s: seq<Point>, p: Point)
    ensures PathOdd(Reversed(s), p) == PathOdd(s, p)
  {
    if |s| >= 2 {
      var front, last := s[..|s| - 1], s[|s| - 1];
      PathReversed(front, p);
      ReversedEnds(front);
      PathJoin([last], Reversed(front), p);
      CrossingSymmetric(last, front[|front| - 1], p);
    }
  }

  // ---- rings --------------------------------------------------------------------------------

  /** Where a ring starts does not matter. */
  lemma RotatingKeepsParity(ring: Ring, k: nat, p: Point)
    requires k <= |ring|
    ensures RingOdd(ring[k..] + ring[..k], p) == RingOdd(ring, p)
  {
    if 0 < k < |ring| {
      assert ring == ring[..k] + ring[k..];
      PathJoin(ring[..k], ring[k..], p);
      PathJoin(ring[k..], ring[..k], p);
    } else {
      assert ring[k..] + ring[..k] == ring;
    }
  }

  /** Neither does its direction. */
  lemma ReversingKeepsParity(ring: Ring, p: Point)
    ensures RingOdd(Reversed(ring), p) == RingOdd(ring, p)
  {
    if |ring| >= 2 {
      ReversedEnds(ring);
      PathReversed(ring, p);
      CrossingSymmetric(ring[|ring| - 1], ring[0], p);
    }
  }

  /** Nor whether the first vertex is repeated at the end. */
  lemma ClosingKeepsParity(ring: Ring, p: Point)
    requires ring != []
    ensures RingOdd(ring + [ring[0]], p) == RingOdd(ring, p)
  {
    PathJoin(ring, [ring[0]], p);
  }

  /** A ring cut along the chord between two of its vertices is the exclusive or of its parts. */
  lemma ChordSplitsParity(ring: Ring, i: nat, k: nat, p: Point)
    requires i < k < |ring|
    ensures RingOdd(ring, p) == (RingOdd(ring[i..k + 1], p) != RingOdd(ring[k..] + ring[..i + 1], p))
  {
    var front := ring[..k + 1];
    PathCut(ring, k, p);
    PathCut(front, i, p);
    assert front[..i + 1] == ring[..i + 1] && front[i..] == ring[i..k + 1];
    PathJoin(ring[k..], ring[..i + 1], p);
    CrossingSymmetric(ring[i], ring[k], p);
  }

  /** A vertex put on an edge changes nothing, so a chord may end anywhere on the ring. */
  lemma VertexOnEdgeKeepsParity(ring: Ring, k: nat, t: real, p: Point)
    requires k + 1 < |ring| && 0.0 <= t <= 1.0
    ensures var m := OnEdge(ring[k], ring[k + 1], t);
            RingOdd(ring[..k + 1] + [m] + ring[k + 1..], p) == RingOdd(ring, p)
  {
    var m := OnEdge(ring[k], ring[k + 1], t);
    var front, back := ring[..k + 1], ring[k + 1..];
    assert ring == front + back;
    PathJoin(front, back, p);
    PathJoin(front, [m], p);
    PathJoin(front + [m], back, p);
    EdgeSplits(ring[k], ring[k + 1], t, p);
  }

  function OnEdge(a: Point, b: Point, t: real): Point {
    Point(a.x + t * (b.x - a.x), a.y + t * (b.y - a.y))
  }

  lemma EdgeSplits(a: Point, b: Point, t: real, p: Point)
    requires 0.0 <= t <= 1.0
    ensures Crosses(a, b, p) == (Crosses(a, OnEdge(a, b, t), p) != Crosses(OnEdge(a, b, t), b, p))
  {
    var m := OnEdge(a, b, t);
    OnEdgeBetween(a, b, t);
    if Straddles(a, m, p.y) {
      SameCrossing(a, b, a, m, p.y, 0.0, t);
    }
    if Straddles(m, b, p.y) {
      SameCrossing(a, b, m, b, p.y, t, 1.0);
    }
  }

  lemma OnEdgeBetween(a: Point, b: Point, t: real)
    requires 0.0 <= t <= 1.0
    ensures a.y <= b.y ==> a.y <= OnEdge(a, b, t).y <= b.y
    ensures a.y >= b.y ==> a.y >= OnEdge(a, b, t).y >= b.y
  {
    var d := b.y - a.y;
    Between(d, t);
    assert OnEdge(a, b, t).y == a.y + t * d;
  }

  lemma Between(d: real, t: real)
    requires 0.0 <= t <= 1.0
    ensures d >= 0.0 ==> 0.0 <= t * d <= d
    ensures d <= 0.0 ==> d <= t * d <= 0.0
  {
    if d >= 0.0 {
      MulOrder(0.0, t, d);
      MulOrder(t, 1.0, d);
    } else {
      MulOrder(0.0, t, -d);
      MulOrder(t, 1.0, -d);
      assert t * (-d) == -(t * d);
    }
  }

  /** Two pieces of one line meet a height at the same place. */
  lemma SameCrossing(a: Point, b: Point, c: Point, d: Point, y: real, s: real, t: real)
    requires Straddles(a, b, y) && Straddles(c, d, y)
    requires c.x == a.x + s * (b.x - a.x) && c.y == a.y + s * (b.y - a.y)
    requires d.x == a.x + t * (b.x - a.x) && d.y == a.y + t * (b.y - a.y)
    ensures CrossingX(a, b, y) == CrossingX(c, d, y)
  {
    var ex, ey := b.x - a.x, b.y - a.y;
    var u, v := CrossingX(a, b, y), CrossingX(c, d, y);
    OnLine(a.x, a.y, b.x, b.y, y);
    OnLine(c.x, c.y, d.x, d.y, y);
    assert d.x - c.x == (t - s) * ex && d.y - c.y == (t - s) * ey;
    ScaledLine(a.x, a.y, ex, ey, s, t - s, y, u, v);
    SameQuotient(u, v, ey * (t - s));
  }

  lemma ScaledLine(x: real, y0: real, ex: real, ey: real, s: real, w: real, y: real, u: real, v: real)
    requires u * ey == x * ey + (y - y0) * ex
    requires v * (w * ey) == (x + s * ex) * (w * ey) + (y - (y0 + s * ey)) * (w * ex)
    ensures u * (ey * w) == v * (ey * w)
  {
    calc {
      v * (ey * w);
      (x + s * ex) * (w * ey) + (y - (y0 + s * ey)) * (w * ex);
      (x * ey + (y - y0) * ex) * w;
      (u * ey) * w;
      u * (ey * w);
    }
  }

  // ---- boxes --------------------------------------------------------------------------------

  ghost predicate AllInBox(points: seq<Point>, b: Bbox) {
    forall i :: 0 <= i < |points| ==> InBox(points[i], b)
  }

  /** Above, below or right of its box no edge is crossed. */
  lemma {:induction false} PathMissed(path: seq<Point>, b: Bbox, p: Point)
    requires AllInBox(path, b) && (p.y > b.ymax || p.y < b.ymin || p.x >= b.xmax)
    ensures !PathOdd(path, p)
  {
    if |path| >= 2 {
      PathMissed(path[..|path| - 1], b, p);
      EdgeMissed(path[|path| - 2], path[|path| - 1], b, p);
    }
  }

  lemma EdgeMissed(u: Point, v: Point, b: Bbox, p: Point)
    requires InBox(u, b) && InBox(v, b) && (p.y > b.ymax || p.y < b.ymin || p.x >= b.xmax)
    ensures !Crosses(u, v, p)
  {
    if Straddles(u, v, p.y) {
      CrossingWithin(u, v, p.y, b.xmin, b.xmax);
    }
  }

  /** Left of its box a path is crossed exactly by the sign changes of its ends. */
  lemma {:induction false} PathOnRight(path: seq<Point>, b: Bbox, p: Point)
    requires path != [] && AllInBox(path, b) && p.x < b.xmin
    ensures PathOdd(path, p) == Straddles(path[0], path[|path| - 1], p.y)
  {
    if |path| >= 2 {
      PathOnRight(path[..|path| - 1], b, p);
      EdgeOnRight(path[|path| - 2], path[|path| - 1], b, p);
    }
  }

  lemma EdgeOnRight(u: Point, v: Point, b: Bbox, p: Point)
    requires InBox(u, b) && InBox(v, b) && p.x < b.xmin
    ensures Crosses(u, v, p) == Straddles(u, v, p.y)
  {
    if Straddles(u, v, p.y) {
      CrossingWithin(u, v, p.y, b.xmin, b.xmax);
    }
  }

  /** A point outside a ring's box is crossed an even number of times. */
  lemma OutsideBoxIsEven(ring: Ring, b: Bbox, p: Point)
    requires AllInBox(ring, b) && !InBox(p, b)
    ensures !RingOdd(ring, p)
  {
    if |ring| >= 2 {
      var first, last := ring[0], ring[|ring| - 1];
      if p.x < b.xmin {
        PathOnRight(ring, b, p);
        EdgeOnRight(last, first, b, p);
      } else {
        PathMissed(ring, b, p);
        EdgeMissed(last, first, b, p);
      }
    }
  }

  /** Parity of a rectangle: the half-open box, closed to the left and below. */
  lemma RectangleIsHalfOpenBox(b: Bbox, p: Point)
    requires b.xmin < b.xmax && b.ymin < b.ymax
    ensures RingOdd([Point(b.xmin, b.ymin), Point(b.xmax, b.ymin), Point(b.xmax, b.ymax), Point(b.xmin, b.ymax)], p)
            <==> b.xmin <= p.x < b.xmax && b.ymin <= p.y < b.ymax
  {
    var v0, v1, v2, v3 := Point(b.xmin, b.ymin), Point(b.xmax, b.ymin), Point(b.xmax, b.ymax), Point(b.xmin, b.ymax);
    PathJoin([v0, v1], [v2, v3], p);
    assert [v0, v1] + [v2, v3] == [v0, v1, v2, v3];
    PathJoin([v0], [v1], p);
    PathJoin([v2], [v3], p);
    assert [v0] + [v1] == [v0, v1] && [v2] + [v3] == [v2, v3];
    if b.ymin <= p.y < b.ymax {
      CrossingWithin(v1, v2, p.y, b.xmax, b.xmax);
      CrossingWithin(v3, v0, p.y, b.xmin, b.xmin);
    }
  }

  // ---- zones --------------------------------------------------------------------------------

  lemma {:induction false} RingsOddConcat(a: seq<Ring>, b: seq<Ring>, p: Point)
    ensures RingsOdd(a + b, p) == (RingsOdd(a, p) != RingsOdd(b, p))
  {
    if b == [] {
      assert a + b == a;
    } else {
      var n := |b| - 1;
      assert (a + b)[..|a + b| - 1] == a + b[..n];
      RingsOddConcat(a, b[..n], p);
    }
  }

  /** A zone is its exteriors xor its holes. */
  lemma {:induction false} InsideIsExteriorsXorHoles(polygons: seq<Polygon>, p: Point)
    ensures RingsOdd(Rings(polygons), p) == (RingsOdd(Exteriors(polygons), p) != RingsOdd(Holes(polygons), p))
  {
    if polygons != [] {
      var front, g := polygons[..|polygons| - 1], polygons[|polygons| - 1];
      InsideIsExteriorsXorHoles(front, p);
      RingsOddConcat(Rings(front), PolygonRings(g), p);
      RingsOddConcat([g.exterior], g.interiors, p);
      RingsOddConcat(Exteriors(front), [g.exterior], p);
      RingsOddConcat(Holes(front), g.interiors, p);
      assert [g.exterior][..0] == [];
    }
  }

  /** The rings that leave the box. */
  function Protruding(rings: seq<Ring>, b: Bbox): seq<Ring> {
    if rings == [] then []
    else
      var front, last := Protruding(rings[..|rings| - 1], b), rings[|rings| - 1];
      if forall i :: 0 <= i < |last| ==> InBox(last[i], b) then front else front + [last]
  }

  lemma {:induction false} OnlyProtrudingRingsCount(rings: seq<Ring>, b: Bbox, p: Point)
    requires !InBox(p, b)
    ensures RingsOdd(rings, p) == RingsOdd(Protruding(rings, b), p)
  {
    if rings != [] {
      var front, last := rings[..|rings| - 1], rings[|rings| - 1];
      OnlyProtrudingRingsCount(front, b, p);
      if forall i :: 0 <= i < |last| ==> InBox(last[i], b) {
        OutsideBoxIsEven(last, b, p);
      }
    }
  }

  lemma {:induction false} ExteriorsInEnvelope(polygons: seq<Polygon>, b: Bbox)
    requires AllInBox(ExteriorPoints(polygons), b)
    ensures Protruding(Exteriors(polygons), b) == []
  {
    if polygons != [] {
      var n := |polygons| - 1;
      var all, before, last := ExteriorPoints(polygons), ExteriorPoints(polygons[..n]), polygons[n].exterior;
      forall i | 0 <= i < |before| ensures InBox(before[i], b) {
        assert all[i] == before[i];
      }
      forall i | 0 <= i < |last| ensures InBox(last[i], b) {
        assert all[|before| + i] == last[i];
      }
      ExteriorsInEnvelope(polygons[..n], b);
    }
  }

  /** Outside the envelope a zone holds exactly the points that are odd to its protruding holes. */
  lemma OutsideEnvelope(z: Zone, b: Bbox, p: Point)
    requires AllInBox(ExteriorPoints(z.polygons), b) && !InBox(p, b)
    ensures Inside(z, p) == RingsOdd(Protruding(Holes(z.polygons), b), p)
  {
    InsideIsExteriorsXorHoles(z.polygons, p);
    OnlyProtrudingRingsCount(Exteriors(z.polygons), b, p);
    ExteriorsInEnvelope(z.polygons, b);
    OnlyProtrudingRingsCount(Holes(z.polygons), b, p);
  }

  /** With every hole inside the envelope nothing outside it belongs to the zone. */
  lemma EnvelopeHoldsZone(z: Zone, b: Bbox, p: Point)
    requires AllInBox(ExteriorPoints(z.polygons), b) && Protruding(Holes(z.polygons), b) == []
    requires Inside(z, p)
    ensures InBox(p, b)
  {
    if !InBox(p, b) {
      OutsideEnvelope(z, b, p);
    }
  }

  function Square(x: real, y: real): Ring {
    [Point(x, y), Point(x + 1.0, y), Point(x + 1.0, y + 1.0), Point(x, y + 1.0)]
  }

  lemma OnePolygon(g: Polygon, p: Point)
    ensures Inside(Zone([g]), p) == (RingOdd(g.exterior, p) != RingsOdd(g.interiors, p))
    ensures ExteriorPoints([g]) == g.exterior
  {
    assert [g][..0] == [];
    assert Exteriors([g][..0]) == [] && Holes([g][..0]) == [];
    assert Exteriors([g]) == [] + [g.exterior] == [g.exterior];
    assert Holes([g]) == [] + g.interiors == g.interiors;
    InsideIsExteriorsXorHoles([g], p);
    SingleRing(g.exterior, p);
  }

  /** A hole outside the envelope puts points outside it into the zone: the box alone is not enough. */
  lemma HoleOutsideEscapesEnvelope(g: Polygon, p: Point)
    requires g == Polygon(Square(0.0, 0.0), [Square(5.0, 5.0)]) && p == Point(5.5, 5.5)
    ensures AllInBox(ExteriorPoints([g]), Bbox(0.0, 0.0, 1.0, 1.0))
    ensures Inside(Zone([g]), p) && !InBox(p, Bbox(0.0, 0.0, 1.0, 1.0))
  {
    OnePolygon(g, p);
    OutsideBoxIsEven(Square(0.0, 0.0), Bbox(0.0, 0.0, 1.0, 1.0), p);
    RectangleIsHalfOpenBox(Bbox(5.0, 5.0, 6.0, 6.0), p);
    SingleRing(Square(5.0, 5.0), p);
  }

  lemma SingleRing(ring: Ring, p: Point)
    ensures RingsOdd([ring], p) == RingOdd(ring, p)
  {
    assert [ring][..0] == [];
  }
}
