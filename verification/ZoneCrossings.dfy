/** Membership in a zone counted out: a point is in it iff the ray to its right crosses an odd number of ring edges. */
module ZoneCrossings {
  import opened Wrappers
  import opened Zone
  import opened ZoneParity

  /** Edge a-b is crossed iff the point is level with it, lower end in and upper end out, and strictly to its left; said
      without dividing, by the side of the line on which the point lies. */
  lemma CrossedIffLeftOf(a: Point, b: Point, p: Point)
    ensures Crosses(a, b, p) <==>
              if a.y <= p.y < b.y then (p.x - a.x) * (b.y - a.y) < (p.y - a.y) * (b.x - a.x)
              else b.y <= p.y < a.y && (p.x - b.x) * (a.y - b.y) < (p.y - b.y) * (a.x - b.x)
  {
    if a.y <= p.y < b.y {
      LeftOfCrossing(a, b, p);
    } else if b.y <= p.y < a.y {
      CrossingSymmetric(a, b, p);
      LeftOfCrossing(b, a, p);
    }
  }

  lemma LeftOfCrossing(a: Point, b: Point, p: Point)
    requires a.y <= p.y < b.y
    ensures Crosses(a, b, p) <==> (p.x - a.x) * (b.y - a.y) < (p.y - a.y) * (b.x - a.x)
  {
    var c, d := CrossingX(a, b, p.y), b.y - a.y;
    OnLine(a.x, a.y, b.x, b.y, p.y);
    assert c * d - p.x * d == (p.y - a.y) * (b.x - a.x) - (p.x - a.x) * d;
    assert p.x < c ==> (c - p.x) * d > 0.0;
    assert p.x >= c ==> (p.x - c) * d >= 0.0;
  }

  /** The edge that ends at vertex i is crossed; the edge to the first vertex starts at the last. */
  predicate EdgeTo(ring: Ring, i: int, p: Point)
    requires 0 <= i < |ring|
  {
    Crosses(if i == 0 then ring[|ring| - 1] else ring[i - 1], ring[i], p)
  }

  /** The crossed edges of a ring, each named by the vertex it ends at. */
  function Crossed(ring: Ring, p: Point): set<int> {
    set i | 0 <= i < |ring| && EdgeTo(ring, i, p)
  }

  /** Those that end at the vertices from 1 up to n. */
  function CrossedBefore(ring: Ring, n: nat, p: Point): set<int>
    requires n <= |ring|
  {
    set i | 1 <= i < n && EdgeTo(ring, i, p)
  }

  lemma {:induction false} PathOddIsCount(ring: Ring, n: nat, p: Point)
    requires n <= |ring|
    ensures PathOdd(ring[..n], p) <==> |CrossedBefore(ring, n, p)| % 2 == 1
  {
    if n < 2 {
      assert CrossedBefore(ring, n, p) == {};
    } else {
      PathOddIsCount(ring, n - 1, p);
      assert ring[..n][..n - 1] == ring[..n - 1];
      var before := CrossedBefore(ring, n - 1, p);
      CountOneMore(before, CrossedBefore(ring, n, p), n - 1, EdgeTo(ring, n - 1, p));
    }
  }

  /** One member more or none turns the parity or leaves it. */
  lemma CountOneMore(s: set<int>, t: set<int>, i: int, more: bool)
    requires i !in s && t == if more then s + {i} else s
    ensures (|t| % 2 == 1) <==> ((|s| % 2 == 1) != more)
  {
  }

  lemma RingOddIsCount(ring: Ring, p: Point)
    ensures RingOdd(ring, p) <==> |Crossed(ring, p)| % 2 == 1
  {
    if |ring| >= 2 {
      PathOddIsCount(ring, |ring|, p);
      assert ring[..|ring|] == ring;
      CountOneMore(CrossedBefore(ring, |ring|, p), Crossed(ring, p), 0, EdgeTo(ring, 0, p));
    } else {
      assert Crossed(ring, p) == {};
    }
  }

  function CrossingsOfRings(rings: seq<Ring>, p: Point): nat {
    if rings == [] then 0 else CrossingsOfRings(rings[..|rings| - 1], p) + |Crossed(rings[|rings| - 1], p)|
  }

  /** Crossed edges of all exteriors and holes. */
  function Crossings(polygons: seq<Polygon>, p: Point): nat {
    if polygons == [] then 0
    else
      var last := polygons[|polygons| - 1];
      Crossings(polygons[..|polygons| - 1], p) + |Crossed(last.exterior, p)| + CrossingsOfRings(last.interiors, p)
  }

  lemma OddSum(n: nat, m: nat)
    ensures ((n + m) % 2 == 1) <==> ((n % 2 == 1) != (m % 2 == 1))
  {
  }

  lemma {:induction false} RingsOddIsCount(rings: seq<Ring>, p: Point)
    ensures RingsOdd(rings, p) <==> CrossingsOfRings(rings, p) % 2 == 1
  {
    if rings != [] {
      var front, last := rings[..|rings| - 1], rings[|rings| - 1];
      RingsOddIsCount(front, p);
      RingOddIsCount(last, p);
      OddSum(CrossingsOfRings(front, p), |Crossed(last, p)|);
    }
  }

  lemma {:induction false} PolygonsOddIsCount(polygons: seq<Polygon>, p: Point)
    ensures RingsOdd(Rings(polygons), p) <==> Crossings(polygons, p) % 2 == 1
  {
    if polygons != [] {
      var front, last := polygons[..|polygons| - 1], polygons[|polygons| - 1];
      PolygonsOddIsCount(front, p);
      RingsOddConcat(Rings(front), PolygonRings(last), p);
      RingsOddConcat([last.exterior], last.interiors, p);
      SingleRing(last.exterior, p);
      RingOddIsCount(last.exterior, p);
      RingsOddIsCount(last.interiors, p);
      OddSum(|Crossed(last.exterior, p)|, CrossingsOfRings(last.interiors, p));
      OddSum(Crossings(front, p), |Crossed(last.exterior, p)| + CrossingsOfRings(last.interiors, p));
    }
  }

  /** A point is in a zone iff an odd number of the edges of its exteriors and holes are crossed. */
  lemma InsideIffOddCrossings(z: Zone, p: Point)
    ensures Inside(z, p) <==> Crossings(z.polygons, p) % 2 == 1
  {
    PolygonsOddIsCount(z.polygons, p);
  }

  /** The envelope is drawn around the vertices of the exteriors, all of them and no others. */
  lemma {:induction false} ExteriorVertices(polygons: seq<Polygon>, q: Point)
    ensures q in ExteriorPoints(polygons) <==> exists i :: 0 <= i < |polygons| && q in polygons[i].exterior
  {
    if polygons != [] {
      var n := |polygons| - 1;
      ExteriorVertices(polygons[..n], q);
      assert polygons == polygons[..n] + [polygons[n]];
    }
  }
}
