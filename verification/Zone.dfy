/** Polygon zones: the even-odd ray cast and the envelope. Coordinates are reals. */
module Zone {
  import opened Wrappers

  datatype Point = Point(x: real, y: real)

  type Ring = seq<Point>

  datatype Polygon = Polygon(exterior: Ring, interiors: seq<Ring>)

  datatype Zone = Zone(polygons: seq<Polygon>)

  /** Closed box; the engine writes it [xmin, ymin, xmax, ymax]. */
  datatype Bbox = Bbox(xmin: real, ymin: real, xmax: real, ymax: real)

  predicate InBox(p: Point, b: Bbox) {
    b.xmin <= p.x <= b.xmax && b.ymin <= p.y <= b.ymax
  }

  /** Edge a-b has one end above the ray's line and one not. */
  predicate Straddles(a: Point, b: Point, y: real) {
    (b.y > y) != (a.y > y)
  }

  /** Where the edge meets the line at height y. */
  function CrossingX(a: Point, b: Point, y: real): real
    requires Straddles(a, b, y)
  {
    a.x + (y - a.y) * (b.x - a.x) / (b.y - a.y)
  }

  /** The ray from p in +x direction crosses edge a-b. */
  predicate Crosses(a: Point, b: Point, p: Point) {
    Straddles(a, b, p.y) && p.x < CrossingX(a, b, p.y)
  }

  /** Parity of the crossings of an open path. */
  predicate PathOdd(path: seq<Point>, p: Point) {
    if |path| < 2 then false
    else PathOdd(path[..|path| - 1], p) != Crosses(path[|path| - 2], path[|path| - 1], p)
  }

  /** Parity of the crossings of a ring, its closing edge included; a ring of one point has none. */
  predicate RingOdd(ring: Ring, p: Point) {
    |ring| >= 2 && (Crosses(ring[|ring| - 1], ring[0], p) != PathOdd(ring, p))
  }

  /** Parity over a list of rings. */
  predicate RingsOdd(rings: seq<Ring>, p: Point) {
    if rings == [] then false else RingsOdd(rings[..|rings| - 1], p) != RingOdd(rings[|rings| - 1], p)
  }

  function PolygonRings(g: Polygon): seq<Ring> {
    [g.exterior] + g.interiors
  }

  function Rings(polygons: seq<Polygon>): seq<Ring> {
    if polygons == [] then [] else Rings(polygons[..|polygons| - 1]) + PolygonRings(polygons[|polygons| - 1])
  }

  function Exteriors(polygons: seq<Polygon>): seq<Ring> {
    if polygons == [] then [] else Exteriors(polygons[..|polygons| - 1]) + [polygons[|polygons| - 1].exterior]
  }

  function Holes(polygons: seq<Polygon>): seq<Ring> {
    if polygons == [] then [] else Holes(polygons[..|polygons| - 1]) + polygons[|polygons| - 1].interiors
  }

  /** Membership as a value: the parity over all rings of the zone. */
  predicate Inside(z: Zone, p: Point) {
    RingsOdd(Rings(z.polygons), p)
  }

  /** The ray cast: `inside` is toggled at each crossing, over all rings. */
  method Contains(z: Zone, x: real, y: real) returns (inside: bool)
    ensures inside == Inside(z, Point(x, y))
  {
    inside := false;
    var rings := Rings(z.polygons);
    for r := 0 to |rings|
      invariant inside == RingsOdd(rings[..r], Point(x, y))
    {
      assert rings[..r + 1][..r] == rings[..r];
      if |rings[r]| >= 2 {
        inside := CastThroughRing(rings[r], x, y, inside);
      }
    }
    assert rings == rings[..|rings|];
  }

  /** The inner loop over the edges of one ring: vertex i with the vertex j before it. */
  method CastThroughRing(pts: Ring, x: real, y: real, before: bool) returns (inside: bool)
    requires |pts| >= 2
    ensures inside == (before != RingOdd(pts, Point(x, y)))
  {
    inside := before;
    var j := |pts| - 1;
    for i := 0 to |pts|
      invariant j == if i == 0 then |pts| - 1 else i - 1
      invariant inside == (before != OddUpTo(pts, i, Point(x, y)))
    {
      OddUpToNext(pts, i, Point(x, y));
      if (pts[i].y > y) != (pts[j].y > y) {
        var xCross := CrossingX(pts[j], pts[i], y);
        if x < xCross {
          inside := !inside;
        }
      }
      j := i;
    }
    assert pts[..|pts|] == pts;
  }

  /** Parity after the first i vertices, each taken with the one before it, the first with the last. */
  ghost predicate OddUpTo(pts: Ring, i: nat, p: Point)
    requires i <= |pts|
  {
    i > 0 && (Crosses(pts[|pts| - 1], pts[0], p) != PathOdd(pts[..i], p))
  }

  lemma OddUpToNext(pts: Ring, i: nat, p: Point)
    requires i < |pts|
    ensures OddUpTo(pts, i + 1, p) ==
              (OddUpTo(pts, i, p) != Crosses(pts[if i == 0 then |pts| - 1 else i - 1], pts[i], p))
  {
    assert pts[..i + 1][..i] == pts[..i];
  }

  /** All exterior vertices, in order. */
  function ExteriorPoints(polygons: seq<Polygon>): seq<Point> {
    if polygons == [] then [] else ExteriorPoints(polygons[..|polygons| - 1]) + polygons[|polygons| - 1].exterior
  }

  /** `b` is the smallest box around `points`: all are inside and each side has one on it. */
  ghost predicate TightBox(points: seq<Point>, b: Bbox) {
    && (forall i :: 0 <= i < |points| ==> InBox(points[i], b))
    && (exists i :: 0 <= i < |points| && points[i].x == b.xmin)
    && (exists i :: 0 <= i < |points| && points[i].x == b.xmax)
    && (exists i :: 0 <= i < |points| && points[i].y == b.ymin)
    && (exists i :: 0 <= i < |points| && points[i].y == b.ymax)
  }

  /** The box stretched to hold c. */
  function Grown(b: Bbox, c: Point): Bbox {
    Bbox(Min(b.xmin, c.x), Min(b.ymin, c.y), Max(b.xmax, c.x), Max(b.ymax, c.y))
  }

  /** envelope: the smallest box around the exteriors, None when they have no vertex. */
  method Envelope(z: Zone) returns (env: Option<Bbox>)
    ensures env.None? <==> ExteriorPoints(z.polygons) == []
    ensures env.Some? ==> TightBox(ExteriorPoints(z.polygons), env.value)
  {
    env := None;
    var points := ExteriorPoints(z.polygons);
    for i := 0 to |points|
      invariant env.None? <==> i == 0
      invariant env.Some? ==> TightBox(points[..i], env.value)
    {
      var c := points[i];
      var e := if env.Some? then env.value else Bbox(c.x, c.y, c.x, c.y);
      GrowBox(points[..i], env, c, Grown(e, c));
      env := Some(Grown(e, c));
      assert points[..i + 1] == points[..i] + [c];
    }
    assert points[..|points|] == points;
  }

  lemma GrowBox(points: seq<Point>, was: Option<Bbox>, c: Point, b: Bbox)
    requires was.None? ==> points == [] && b == Bbox(c.x, c.y, c.x, c.y)
    requires was.Some? ==> TightBox(points, was.value)
    requires was.Some? ==> b == Grown(was.value, c)
    ensures TightBox(points + [c], b)
  {
    var more := points + [c];
    assert more[|points|] == c;
    if was.Some? {
      var i :| 0 <= i < |points| && points[i].x == was.value.xmin;
      var j :| 0 <= j < |points| && points[j].x == was.value.xmax;
      var k :| 0 <= k < |points| && points[k].y == was.value.ymin;
      var l :| 0 <= l < |points| && points[l].y == was.value.ymax;
      assert more[i] == points[i] && more[j] == points[j] && more[k] == points[k] && more[l] == points[l];
    }
  }

  function Min(a: real, b: real): real {
    if a <= b then a else b
  }

  function Max(a: real, b: real): real {
    if a >= b then a else b
  }

  /** The box of a zone is determined by its exteriors. */
  lemma TightBoxUnique(points: seq<Point>, b: Bbox, c: Bbox)
    requires TightBox(points, b) && TightBox(points, c)
    ensures b == c
  {
  }
}
