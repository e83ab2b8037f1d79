/** Zonal statistics of a box and of a polygon, against the naive filter of the whole image. */
module Zonal {
  import opened Wrappers
  import opened TileSource
  import opened Zone
  import opened ZoneParity
  import opened Windows
  import opened Grids
  import opened Raster
  import opened WindowScan

  predicate ValidBox(b: Bbox) {
    b.xmin <= b.xmax && b.ymin <= b.ymax
  }

  predicate HasBand<V>(cog: Cog<V>, band: nat) {
    0 < band <= cog.numBands
  }

  /** A level with a georeference to place its pixels. */
  predicate Located<V>(cog: Cog<V>, level: nat) {
    cog.georef.Some? && level < |cog.levels|
  }

  /** Centre of pixel c of a level; levels without pixels have none. */
  function CenterAt<V>(cog: Cog<V>, level: nat, c: Cell): Point
    requires Located(cog, level)
  {
    var l := cog.levels[level];
    if l.width == 0 || l.height == 0 then Point(0.0, 0.0)
    else Center(LevelGeoref(cog.georef.value, cog.levels[0], l), c.x, c.y)
  }

  /** The centre of pixel (x, y) of a level of w by h pixels lies (x + 1/2) / w along the extent of the base level and
      (y + 1/2) / h down it. */
  lemma CenterIsFractionOfExtent<V>(cog: Cog<V>, level: nat, c: Cell)
    requires Located(cog, level) && cog.levels[level].width > 0 && cog.levels[level].height > 0
    ensures var g, l0, l := cog.georef.value, cog.levels[0], cog.levels[level];
            var p := CenterAt(cog, level, c);
            && (p.x - g.originX) * l.width as real == (c.x as real + 0.5) * (l0.width as real * g.pixelX)
            && (g.originY - p.y) * l.height as real == (c.y as real + 0.5) * (l0.height as real * g.pixelY)
  {
    var g, l0, l := cog.georef.value, cog.levels[0], cog.levels[level];
    AlongExtent(c.x as real + 0.5, g.pixelX, l0.width as real, l.width as real);
    AlongExtent(c.y as real + 0.5, g.pixelY, l0.height as real, l.height as real);
  }

  lemma AlongExtent(c: real, p: real, n0: real, n: real)
    requires n > 0.0
    ensures (c * (p * (n0 / n))) * n == c * (n0 * p)
  {
    var r := n0 / n;
    assert r * n == n0;
    assert (c * (p * r)) * n == c * (p * (r * n));
  }

  /** The window of a box on a level: a level without pixels has none. */
  function LevelWindow<V>(cog: Cog<V>, level: nat, b: Bbox): Option<Window>
    requires WellFormed(cog) && Located(cog, level)
  {
    var l := cog.levels[level];
    if l.width == 0 || l.height == 0 then None
    else CenterWindow(LevelGeoref(cog.georef.value, cog.levels[0], l), l, b)
  }

  /** Pixels of a level are never flipped, even when the base level has none to derive their size from. */
  lemma ScaledIsUnflipped(g: Georef, l0: Level, l: Level)
    requires NorthUp(g) && l.width > 0 && l.height > 0
    ensures Unflipped(LevelGeoref(g, l0, l))
  {
    ScaledNotNegative(g.pixelX, l0.width, l.width);
    ScaledNotNegative(g.pixelY, l0.height, l.height);
  }

  lemma ScaledNotNegative(p: real, n: nat, m: nat)
    requires p > 0.0 && m > 0
    ensures p * (n as real / m as real) >= 0.0
  {
    var q := n as real / m as real;
    assert q >= 0.0;
  }

  lemma ScaledIsNorthUp(g: Georef, l0: Level, l: Level)
    requires NorthUp(g) && l0.width > 0 && l0.height > 0 && l.width > 0 && l.height > 0
    ensures NorthUp(LevelGeoref(g, l0, l))
  {
    ScaledPositive(g.pixelX, l0.width, l.width);
    ScaledPositive(g.pixelY, l0.height, l.height);
  }

  /** At the base level the scaled georeference is the file's own. */
  lemma BaseGeoref(g: Georef, l: Level)
    requires l.width > 0 && l.height > 0
    ensures LevelGeoref(g, l, l) == g
  {
    assert l.width as real / l.width as real == 1.0;
    assert l.height as real / l.height as real == 1.0;
  }

  lemma ScaledPositive(p: real, n: nat, m: nat)
    requires p > 0.0 && n > 0 && m > 0
    ensures p * (n as real / m as real) > 0.0
  {
    var q := n as real / m as real;
    assert q > 0.0;
  }

  /** Every pixel of the level, row by row. */
  function Image(l: Level): seq<Cell> {
    Rect(0, l.width, 0, l.height)
  }

  /** The naive reading: all pixels of the level, those that are wanted and not nodata. */
  function Naive<V>(ops: Ops<V>, cog: Cog<V>, level: nat, band: nat, wanted: Cell -> bool): Scanned<V>
    requires WellFormed(cog) && level < |cog.levels| && band > 0
  {
    Scan(ops, Stored(cog, level, band), wanted, Ok(Empty(ops)), Image(cog.levels[level]))
  }

  function CenterInBox<V>(cog: Cog<V>, level: nat, b: Bbox): Cell -> bool
    requires Located(cog, level)
  {
    (c: Cell) => InBox(CenterAt(cog, level, c), b)
  }

  function CenterInside<V>(cog: Cog<V>, level: nat, z: Zone): Cell -> bool
    requires Located(cog, level)
  {
    (c: Cell) => Inside(z, CenterAt(cog, level, c))
  }

  // ---- bbox ---------------------------------------------------------------------------------

  /** zonal_stats_at: the checks in order, then the window of the box. */
  method ZonalStatsAt<V>(ops: Ops<V>, cog: Cog<V>, b: Bbox, band: nat, level: nat) returns (r: Scanned<V>)
    requires WellFormed(cog)
    ensures !ValidBox(b) ==> r == Err(InvalidFilter)
    ensures ValidBox(b) && cog.georef.None? ==> r == Err(NotGeoreferenced)
    ensures ValidBox(b) && cog.georef.Some? && (level >= |cog.levels| || !HasBand(cog, band)) ==> r == Ok(Empty(ops))
    ensures ValidBox(b) && Located(cog, level) && HasBand(cog, band) ==> r == BoxStats(ops, cog, b, band, level)
  {
    if b.xmin > b.xmax || b.ymin > b.ymax {
      return Err(InvalidFilter);
    }
    if cog.georef.None? {
      return Err(NotGeoreferenced);
    }
    if level >= |cog.levels| {
      return Ok(Empty(ops));
    }
    if band == 0 || band > cog.numBands {
      return Ok(Empty(ops));
    }
    var window := LevelWindow(cog, level, b);
    if window.None? {
      return Ok(Empty(ops));
    }
    r := AccumulateWindow(ops, cog, level, window.value, band, All());
  }

  function BoxStats<V>(ops: Ops<V>, cog: Cog<V>, b: Bbox, band: nat, level: nat): Scanned<V>
    requires WellFormed(cog) && Located(cog, level) && HasBand(cog, band)
  {
    var w := LevelWindow(cog, level, b);
    if w.None? then Ok(Empty(ops)) else WindowStats(ops, cog, level, w.value, band, All())
  }

  lemma ImageCount(l: Level, wanted: Cell -> bool, c: Cell)
    ensures multiset(Kept(Image(l), wanted))[c] == One(InImage(l, c.x, c.y) && wanted(c))
  {
    RectCount(0, l.width, 0, l.height, c);
    KeptCount(Image(l), wanted, c);
  }

  /** The window of a box holds the level's pixels whose centre is in it. */
  lemma WindowHolds<V>(cog: Cog<V>, level: nat, b: Bbox, c: Cell)
    requires WellFormed(cog) && Located(cog, level)
    ensures (LevelWindow(cog, level, b).Some? && Covers(LevelWindow(cog, level, b).value, c)) <==>
              InImage(cog.levels[level], c.x, c.y) && InBox(CenterAt(cog, level, c), b)
    ensures LevelWindow(cog, level, b).Some? ==> Ordered(LevelWindow(cog, level, b).value)
  {
    var l := cog.levels[level];
    if l.width > 0 && l.height > 0 {
      ScaledIsUnflipped(cog.georef.value, cog.levels[0], l);
      CenterWindowExact(LevelGeoref(cog.georef.value, cog.levels[0], l), l, b, c.x, c.y);
    }
  }

  lemma NothingWanted<V>(ops: Ops<V>, cog: Cog<V>, level: nat, band: nat, wanted: Cell -> bool)
    requires WellFormed(cog) && level < |cog.levels| && band > 0
    requires forall c: Cell :: InImage(cog.levels[level], c.x, c.y) ==> !wanted(c)
    ensures Naive(ops, cog, level, band, wanted) == Ok(Empty(ops))
  {
    var l := cog.levels[level];
    ScanKept(ops, Stored(cog, level, band), wanted, Ok(Empty(ops)), Image(l));
    forall c ensures multiset(Kept(Image(l), wanted))[c] == 0 {
      ImageCount(l, wanted, c);
    }
    assert multiset(Kept(Image(l), wanted)) == multiset{};
    assert |Kept(Image(l), wanted)| == |multiset(Kept(Image(l), wanted))|;
  }

  /** Box statistics are the naive filter of the whole level by "centre in the closed box": same outcome, count, min and
      max, and the same sum when addition is exact. An unreadable tile is an error of both. */
  lemma BoxIsNaive<V(!new)>(ops: Ops<V>, cog: Cog<V>, b: Bbox, band: nat, level: nat)
    requires WellFormed(cog) && Located(cog, level) && HasBand(cog, band) && ExtremaCommute(ops)
    ensures SameButSum(BoxStats(ops, cog, b, band, level), Naive(ops, cog, level, band, CenterInBox(cog, level, b)))
    ensures SumCommutes(ops) ==>
              BoxStats(ops, cog, b, band, level) == Naive(ops, cog, level, band, CenterInBox(cog, level, b))
  {
    var l, wanted, window := cog.levels[level], CenterInBox(cog, level, b), LevelWindow(cog, level, b);
    forall c ensures (window.Some? && Covers(window.value, c)) <==> InImage(l, c.x, c.y) && wanted(c) {
      WindowHolds(cog, level, b, c);
    }
    if window.None? {
      NothingWanted(ops, cog, level, band, wanted);
    } else {
      var w := window.value;
      WindowHolds(cog, level, b, Cell(0, 0));
      forall c ensures multiset(Kept(Image(l), wanted))[c] == One(Covers(w, c) && All()(c)) {
        ImageCount(l, wanted, c);
      }
      WindowIsAnyScan(ops, cog, level, w, band, All(), Image(l), wanted);
      if !AllDecode(cog.source, TileKeys(cog, level, WindowTiles(w, l.tileWidth, l.tileHeight))) {
        var c := UndecodedTileHidesPixel(cog, level, w, band);
        WantedUnreadableErrs(ops, cog, level, band, wanted, c);
      }
    }
  }

  lemma WantedUnreadableErrs<V>(ops: Ops<V>, cog: Cog<V>, level: nat, band: nat, wanted: Cell -> bool, c: Cell)
    requires WellFormed(cog) && level < |cog.levels| && band > 0
    requires InImage(cog.levels[level], c.x, c.y) && wanted(c) && PixelAt(cog, level, band, c).None?
    ensures Naive(ops, cog, level, band, wanted) == Err(Tiff)
  {
    var l := cog.levels[level];
    RectHas(0, l.width, 0, l.height, c);
    ScanErrs(ops, Stored(cog, level, band), wanted, Ok(Empty(ops)), Image(l));
  }

  // ---- polygon ------------------------------------------------------------------------------

  /** The envelope as a value. */
  ghost function EnvelopeOf(z: Zone): (env: Option<Bbox>)
    ensures env.None? <==> ExteriorPoints(z.polygons) == []
    ensures env.Some? ==> TightBox(ExteriorPoints(z.polygons), env.value)
  {
    var points := ExteriorPoints(z.polygons);
    if points == [] then None
    else
      TightBoxExists(points);
      var b :| TightBox(points, b);
      Some(b)
  }

  /** The envelope is the tight box of the exteriors, whichever way it is found. */
  lemma EnvelopeIs(z: Zone, points: seq<Point>, box: Bbox)
    requires points == ExteriorPoints(z.polygons) && points != [] && TightBox(points, box)
    ensures EnvelopeOf(z) == Some(box)
  {
    TightBoxUnique(points, box, EnvelopeOf(z).value);
  }

  lemma {:induction false} TightBoxExists(points: seq<Point>)
    requires points != []
    ensures exists b :: TightBox(points, b)
  {
    var n := |points| - 1;
    var c := points[n];
    assert points == points[..n] + [c];
    if n == 0 {
      GrowBox([], None, c, Bbox(c.x, c.y, c.x, c.y));
    } else {
      TightBoxExists(points[..n]);
      var b :| TightBox(points[..n], b);
      GrowBox(points[..n], Some(b), c, Grown(b, c));
    }
  }

  /** The window of a zone: that of its envelope. */
  ghost function ZoneWindow<V>(cog: Cog<V>, level: nat, z: Zone): Option<Window>
    requires WellFormed(cog) && Located(cog, level)
  {
    var env := EnvelopeOf(z);
    if env.None? then None else LevelWindow(cog, level, env.value)
  }

  ghost function ZoneStats<V>(ops: Ops<V>, cog: Cog<V>, z: Zone, band: nat, level: nat): Scanned<V>
    requires WellFormed(cog) && Located(cog, level) && HasBand(cog, band)
  {
    var w := ZoneWindow(cog, level, z);
    if w.None? then Ok(Empty(ops)) else WindowStats(ops, cog, level, w.value, band, CenterInside(cog, level, z))
  }

  /** zonal_stats_polygon_at, in full: errors, the empty statistics, or the statistics of the envelope window. */
  ghost function PolygonResult<V>(ops: Ops<V>, cog: Cog<V>, z: Zone, band: nat, level: nat): Scanned<V>
    requires WellFormed(cog)
  {
    if cog.georef.None? then Err(NotGeoreferenced)
    else if level >= |cog.levels| || !HasBand(cog, band) then Ok(Empty(ops))
    else ZoneStats(ops, cog, z, band, level)
  }

  method ZonalStatsPolygonAt<V>(ops: Ops<V>, cog: Cog<V>, z: Zone, band: nat, level: nat) returns (r: Scanned<V>)
    requires WellFormed(cog)
    ensures r == PolygonResult(ops, cog, z, band, level)
    ensures cog.georef.None? ==> r == Err(NotGeoreferenced)
    ensures cog.georef.Some? && (level >= |cog.levels| || !HasBand(cog, band)) ==> r == Ok(Empty(ops))
    ensures Located(cog, level) && HasBand(cog, band) ==> r == ZoneStats(ops, cog, z, band, level)
  {
    if cog.georef.None? {
      return Err(NotGeoreferenced);
    }
    if level >= |cog.levels| {
      return Ok(Empty(ops));
    }
    if band == 0 || band > cog.numBands {
      return Ok(Empty(ops));
    }
    var env := Envelope(z);
    if env.None? {
      return Ok(Empty(ops));
    }
    TightBoxUnique(ExteriorPoints(z.polygons), env.value, EnvelopeOf(z).value);
    var window := LevelWindow(cog, level, env.value);
    if window.None? {
      return Ok(Empty(ops));
    }
    WindowHolds(cog, level, env.value, Cell(0, 0));
    r := AccumulateWindow(ops, cog, level, window.value, band, CenterInside(cog, level, z));
  }

  /** Points the zone holds outside its envelope: odd to the holes that leave it. */
  ghost predicate Escapes(z: Zone, p: Point) {
    var env := EnvelopeOf(z);
    if env.None? then RingsOdd(Holes(z.polygons), p)
    else !InBox(p, env.value) && RingsOdd(Protruding(Holes(z.polygons), env.value), p)
  }

  predicate AllEmpty(rings: seq<Ring>) {
    forall i :: 0 <= i < |rings| ==> rings[i] == []
  }

  lemma {:induction false} NoExteriorPoints(polygons: seq<Polygon>)
    requires ExteriorPoints(polygons) == []
    ensures AllEmpty(Exteriors(polygons))
  {
    if polygons != [] {
      NoExteriorPoints(polygons[..|polygons| - 1]);
    }
  }

  lemma {:induction false} EmptyRingsAreEven(rings: seq<Ring>, p: Point)
    requires AllEmpty(rings)
    ensures !RingsOdd(rings, p)
  {
    if rings != [] {
      EmptyRingsAreEven(rings[..|rings| - 1], p);
    }
  }

  /** Membership splits into the envelope's part and what escapes it. */
  lemma InsideOrEscapes(z: Zone, p: Point)
    ensures Inside(z, p) <==> Escapes(z, p) || (EnvelopeOf(z).Some? && InBox(p, EnvelopeOf(z).value) && Inside(z, p))
  {
    var env := EnvelopeOf(z);
    if env.None? {
      NoExteriorPoints(z.polygons);
      EmptyRingsAreEven(Exteriors(z.polygons), p);
      InsideIsExteriorsXorHoles(z.polygons, p);
    } else if !InBox(p, env.value) {
      assert AllInBox(ExteriorPoints(z.polygons), env.value);
      OutsideEnvelope(z, env.value, p);
    }
  }

  /** Wanted by the polygon scan: inside the zone and in the envelope. */
  ghost function CenterInEnvelopePart<V>(cog: Cog<V>, level: nat, z: Zone): Cell -> bool
    requires Located(cog, level)
  {
    (c: Cell) => Inside(z, CenterAt(cog, level, c)) && !Escapes(z, CenterAt(cog, level, c))
  }

  /** The pixels a zone's scan sees are the level's pixels inside the zone that do not escape its envelope. */
  lemma ZoneWindowHolds<V>(cog: Cog<V>, level: nat, z: Zone, c: Cell)
    requires WellFormed(cog) && Located(cog, level)
    ensures (&& ZoneWindow(cog, level, z).Some? && Covers(ZoneWindow(cog, level, z).value, c)
             && CenterInside(cog, level, z)(c)) <==>
              InImage(cog.levels[level], c.x, c.y) && CenterInEnvelopePart(cog, level, z)(c)
    ensures ZoneWindow(cog, level, z).Some? ==> Ordered(ZoneWindow(cog, level, z).value)
  {
    InsideOrEscapes(z, CenterAt(cog, level, c));
    if EnvelopeOf(z).Some? {
      WindowHolds(cog, level, EnvelopeOf(z).value, c);
    }
  }

  /** Polygon statistics, exactly: an error if a tile of the window is unreadable, else the naive filter of the whole
      level by "centre inside the zone and not escaping the envelope". */
  lemma PolygonIsNaive<V(!new)>(ops: Ops<V>, cog: Cog<V>, z: Zone, band: nat, level: nat)
    requires WellFormed(cog) && Located(cog, level) && HasBand(cog, band) && ExtremaCommute(ops)
    ensures var r := ZoneStats(ops, cog, z, band, level);
            var naive := Naive(ops, cog, level, band, CenterInEnvelopePart(cog, level, z));
            if ZoneReadable(cog, z, level) then SameButSum(r, naive) && (SumCommutes(ops) ==> r == naive)
            else r == Err(Tiff)
  {
    var l, window := cog.levels[level], ZoneWindow(cog, level, z);
    var wanted, keep := CenterInEnvelopePart(cog, level, z), CenterInside(cog, level, z);
    forall c ensures (window.Some? && Covers(window.value, c) && keep(c)) <==> InImage(l, c.x, c.y) && wanted(c) {
      ZoneWindowHolds(cog, level, z, c);
    }
    if window.None? {
      NothingWanted(ops, cog, level, band, wanted);
    } else {
      forall c ensures multiset(Kept(Image(l), wanted))[c] == One(Covers(window.value, c) && keep(c)) {
        ImageCount(l, wanted, c);
      }
      WindowIsAnyScan(ops, cog, level, window.value, band, keep, Image(l), wanted);
    }
  }

  /** All tiles of the zone's window decode. */
  ghost predicate ZoneReadable<V>(cog: Cog<V>, z: Zone, level: nat)
    requires WellFormed(cog) && Located(cog, level)
  {
    var w, l := ZoneWindow(cog, level, z), cog.levels[level];
    w.Some? ==> AllDecode(cog.source, TileKeys(cog, level, WindowTiles(w.value, l.tileWidth, l.tileHeight)))
  }

  ghost predicate InZoneWindow<V>(cog: Cog<V>, level: nat, z: Zone, c: Cell)
    requires WellFormed(cog) && Located(cog, level)
  {
    ZoneWindow(cog, level, z).Some? && Covers(ZoneWindow(cog, level, z).value, c)
  }

  predicate OnLevel<V>(cog: Cog<V>, level: nat, c: Cell)
    requires level < |cog.levels|
  {
    InImage(cog.levels[level], c.x, c.y)
  }

  /** The window of the envelope has every pixel of the zone iff no pixel centre escapes through a protruding hole. */
  lemma WindowHasWholeZoneIff<V>(cog: Cog<V>, level: nat, z: Zone)
    requires WellFormed(cog) && Located(cog, level)
    ensures (forall c :: OnLevel(cog, level, c) && Inside(z, CenterAt(cog, level, c)) ==>
             InZoneWindow(cog, level, z, c)) <==>
              (forall c :: OnLevel(cog, level, c) ==> !Escapes(z, CenterAt(cog, level, c)))
  {
    forall c | OnLevel(cog, level, c)
      ensures Escapes(z, CenterAt(cog, level, c)) <==>
                Inside(z, CenterAt(cog, level, c)) && !InZoneWindow(cog, level, z, c)
    {
      InsideOrEscapes(z, CenterAt(cog, level, c));
      if EnvelopeOf(z).Some? {
        WindowHolds(cog, level, EnvelopeOf(z).value, c);
      }
    }
  }

  lemma UnitSquareBox()
    ensures TightBox(Square(0.0, 0.0), Bbox(0.0, 0.0, 1.0, 1.0))
  {
    var s := Square(0.0, 0.0);
    assert s[0].x == 0.0 && s[1].x == 1.0 && s[0].y == 0.0 && s[2].y == 1.0;
  }

  /** It can: a hole away from the exterior puts a pixel centre into the zone that the window does not have. */
  lemma WindowCanMissZone<V>(cog: Cog<V>, z: Zone, c: Cell)
    requires cog.levels == [Level(0, 8, 8, 8, 8, 1, 1)] && cog.georef == Some(Georef(0.0, 8.0, 1.0, 1.0))
    requires z == Zone([Polygon(Square(0.0, 0.0), [Square(5.0, 5.0)])]) && c == Cell(5, 2)
    ensures OnLevel(cog, 0, c) && Inside(z, CenterAt(cog, 0, c)) && !InZoneWindow(cog, 0, z, c)
  {
    var g := Polygon(Square(0.0, 0.0), [Square(5.0, 5.0)]);
    CenterOfUnits(cog, c);
    HoleOutsideEscapesEnvelope(g, Point(5.5, 5.5));
    SquareEnvelope(z, g, Bbox(0.0, 0.0, 1.0, 1.0));
    WindowHolds(cog, 0, Bbox(0.0, 0.0, 1.0, 1.0), c);
  }

  lemma CenterOfUnits<V>(cog: Cog<V>, c: Cell)
    requires cog.levels == [Level(0, 8, 8, 8, 8, 1, 1)] && cog.georef == Some(Georef(0.0, 8.0, 1.0, 1.0))
    ensures CenterAt(cog, 0, c) == Point(c.x as real + 0.5, 8.0 - (c.y as real + 0.5))
  {
    BaseGeoref(cog.georef.value, cog.levels[0]);
  }

  lemma SquareEnvelope(z: Zone, g: Polygon, box: Bbox)
    requires z.polygons == [g] && g.exterior == Square(0.0, 0.0) && box == Bbox(0.0, 0.0, 1.0, 1.0)
    ensures EnvelopeOf(z) == Some(box)
  {
    OnePolygon(g, Point(0.0, 0.0));
    UnitSquareBox();
    EnvelopeIs(z, g.exterior, box);
  }

  lemma {:induction false} ScanSameKeep<V>(ops: Ops<V>, px: Cell -> Option<V>, keep: Cell -> bool,
                                           keep': Cell -> bool, start: Scanned<V>, list: seq<Cell>)
    requires forall c :: c in list ==> keep(c) == keep'(c)
    ensures Scan(ops, px, keep, start, list) == Scan(ops, px, keep', start, list)
  {
    if list != [] {
      ScanSameKeep(ops, px, keep, keep', start, list[..|list| - 1]);
      ScanLast(ops, px, keep, start, list);
      ScanLast(ops, px, keep', start, list);
    }
  }

  /** With holes inside the envelope of the exteriors, polygon statistics are the filter of the whole level by
      `contains`. */
  lemma HolesInsideMeansWholeZone<V(!new)>(ops: Ops<V>, cog: Cog<V>, z: Zone, band: nat, level: nat)
    requires WellFormed(cog) && Located(cog, level) && HasBand(cog, band) && ExtremaCommute(ops)
    requires EnvelopeOf(z).Some? && Protruding(Holes(z.polygons), EnvelopeOf(z).value) == []
    ensures var r := ZoneStats(ops, cog, z, band, level);
            var naive := Naive(ops, cog, level, band, CenterInside(cog, level, z));
            if ZoneReadable(cog, z, level) then SameButSum(r, naive) && (SumCommutes(ops) ==> r == naive)
            else r == Err(Tiff)
  {
    PolygonIsNaive(ops, cog, z, band, level);
    ScanSameKeep(ops, Stored(cog, level, band), CenterInEnvelopePart(cog, level, z), CenterInside(cog, level, z),
                 Ok(Empty(ops)), Image(cog.levels[level]));
  }
}
