/** Band windows and zonal statistics agree: folding the array gives the statistics. */
module BandWindowLaws {
  import opened Wrappers
  import opened Arrays
  import opened TileSource
  import opened Zone
  import opened ZoneParity
  import opened Windows
  import opened Grids
  import opened Raster
  import opened WindowScan
  import opened Zonal
  import opened BandWindow

  /** Statistics of an array of optional values. */
  function Fold<V>(ops: Ops<V>, values: seq<Option<V>>): Stats<V> {
    if values == [] then Empty(ops)
    else
      var s, last := Fold(ops, values[..|values| - 1]), values[|values| - 1];
      if last.Some? then AddValue(ops, s, last.value) else s
  }

  ghost predicate MaskedBy<V>(ops: Ops<V>, px: Cell -> Option<V>, keep: Cell -> bool, list: seq<Cell>,
                              values: seq<Option<V>>) {
    && |values| == |list|
    && forall i :: 0 <= i < |list| ==>
         px(list[i]).Some? && values[i] == if keep(list[i]) then ValueOf(ops, px(list[i])) else None
  }

  lemma {:induction false} ScanIsFold<V>(ops: Ops<V>, px: Cell -> Option<V>, keep: Cell -> bool, list: seq<Cell>,
                                         values: seq<Option<V>>)
    requires MaskedBy(ops, px, keep, list, values)
    ensures Scan(ops, px, keep, Ok(Empty(ops)), list) == Ok(Fold(ops, values))
  {
    if list != [] {
      var n := |list| - 1;
      ScanIsFold(ops, px, keep, list[..n], values[..n]);
      ScanLast(ops, px, keep, Ok(Empty(ops)), list);
      assert px(list[n]).Some?;
    }
  }

  lemma BaseWindow<V>(cog: Cog<V>, b: Bbox)
    requires WellFormed(cog) && Located(cog, 0) && cog.levels[0].width > 0 && cog.levels[0].height > 0
    ensures LevelWindow(cog, 0, b) == CenterWindow(cog.georef.value, cog.levels[0], b)
  {
    BaseGeoref(cog.georef.value, cog.levels[0]);
  }

  lemma UndecodedTileMissing<V>(cog: Cog<V>, band: nat, w: Window)
    requires WellFormed(cog) && cog.levels != [] && band > 0 && Ordered(w)
    requires !AllDecode(cog.source, TileKeys(cog, 0, WindowTiles(w, cog.levels[0].tileWidth, cog.levels[0].tileHeight)))
    ensures !AllStored(IsStored(cog, band), w)
  {
    var c := UndecodedTileHidesPixel(cog, 0, w, band);
    assert !IsStored(cog, band)(c);
  }

  lemma PixelsStored<V>(cog: Cog<V>, band: nat, w: Window)
    requires WellFormed(cog) && cog.levels != [] && band > 0 && Ordered(w) && AllStored(IsStored(cog, band), w)
    ensures forall i :: 0 <= i < |Pixels(w)| ==> Stored(cog, 0, band)(Pixels(w)[i]).Some?
  {
    forall i | 0 <= i < |Pixels(w)| ensures Stored(cog, 0, band)(Pixels(w)[i]).Some? {
      SlotPixel(w, i);
      assert IsStored(cog, band)(Pixels(w)[i]);
    }
  }

  lemma KeptPixelsCount(w: Window, keep: Cell -> bool, c: Cell)
    ensures multiset(Kept(Pixels(w), keep))[c] == One(Covers(w, c) && keep(c))
  {
    KeptCount(Pixels(w), keep, c);
    RectCount(w.colMin, w.colMax + 1, w.rowMin, w.rowMax + 1, c);
  }

  /** A window's statistics are the fold of its masked array. */
  lemma WindowIsFold<V(!new)>(ops: Ops<V>, cog: Cog<V>, band: nat, w: Window, keep: Cell -> bool,
                       values: seq<Option<V>>)
    requires WellFormed(cog) && cog.levels != [] && band > 0 && Ordered(w) && AllStored(IsStored(cog, band), w)
    requires ExtremaCommute(ops)
    requires MaskedBy(ops, Stored(cog, 0, band), keep, Pixels(w), values)
    ensures SameButSum(WindowStats(ops, cog, 0, w, band, keep), Ok(Fold(ops, values)))
    ensures SumCommutes(ops) ==> WindowStats(ops, cog, 0, w, band, keep) == Ok(Fold(ops, values))
  {
    if !AllDecode(cog.source, TileKeys(cog, 0, WindowTiles(w, cog.levels[0].tileWidth, cog.levels[0].tileHeight))) {
      UndecodedTileMissing(cog, band, w);
    } else {
      forall c ensures multiset(Kept(Pixels(w), keep))[c] == One(Covers(w, c) && keep(c)) {
        KeptPixelsCount(w, keep, c);
      }
      WindowIsAnyScan(ops, cog, 0, w, band, keep, Pixels(w), keep);
      ScanIsFold(ops, Stored(cog, 0, band), keep, Pixels(w), values);
    }
  }

  /** The array goes by the same window as the statistics: empty without one, an error if a pixel of it is missing. */
  lemma PolygonBandByWindow<V>(ops: Ops<V>, cog: Cog<V>, z: Zone, band: nat, window: Option<Window>, r: BandResult<V>)
    requires WellFormed(cog) && Located(cog, 0) && HasBand(cog, band)
    requires window == ZoneWindow(cog, 0, z) && r == PolygonBandOf(ops, cog, z, band)
    ensures window.Some? ==> Ordered(window.value) && cog.levels[0].width > 0 && cog.levels[0].height > 0
    ensures window.None? ==> r == Ok(Some([]))
    ensures window.Some? && !AllStored(IsStored(cog, band), window.value) ==> r == Err(Tiff)
    ensures window.Some? && AllStored(IsStored(cog, band), window.value) ==>
              var pixels := Pixels(window.value);
              r == Ok(Some(Masked(cog, z, pixels, Values(ops, Stored(cog, 0, band), pixels))))
  {
    ZoneWindowHolds(cog, 0, z, Cell(0, 0));
    if EnvelopeOf(z).Some? && cog.levels[0].width > 0 && cog.levels[0].height > 0 {
      BaseWindow(cog, EnvelopeOf(z).value);
    }
  }

  /** The polygon array holds exactly what the polygon statistics count: same count, min, max, and same exact sum. */
  lemma PolygonBandAgrees<V(!new)>(ops: Ops<V>, cog: Cog<V>, z: Zone, band: nat)
    requires WellFormed(cog) && Located(cog, 0) && HasBand(cog, band) && ExtremaCommute(ops)
    ensures var r := PolygonBandOf(ops, cog, z, band);
            r.Ok? ==>
              && r.value.Some?
              && SameButSum(ZoneStats(ops, cog, z, band, 0), Ok(Fold(ops, r.value.value)))
              && (SumCommutes(ops) ==> ZoneStats(ops, cog, z, band, 0) == Ok(Fold(ops, r.value.value)))
  {
    var r, window := PolygonBandOf(ops, cog, z, band), ZoneWindow(cog, 0, z);
    PolygonBandByWindow(ops, cog, z, band, window, r);
    if r.Ok? && window.Some? {
      var w := window.value;
      PixelsStored(cog, band, w);
      var values := Masked(cog, z, Pixels(w), Values(ops, Stored(cog, 0, band), Pixels(w)));
      assert MaskedBy(ops, Stored(cog, 0, band), CenterInside(cog, 0, z), Pixels(w), values);
      WindowIsFold(ops, cog, band, w, CenterInside(cog, 0, z), values);
    }
  }

  // ---- when the array is an error and the statistics are not --------------------------------

  /** Every pixel of the window that is to be kept is in a decoded tile. */
  ghost predicate AllKeptStored(px: Cell -> bool, keep: Cell -> bool, w: Window) {
    forall c :: Covers(w, c) && keep(c) ==> px(c)
  }

  lemma VisitedIsCovered(w: Window, tw: nat, th: nat, c: Cell)
    requires tw > 0 && th > 0
    ensures c in Visit(w, WindowTiles(w, tw, th), tw, th) <==> Covers(w, c)
  {
    TilesPartitionWindow(w, tw, th);
    assert c in Visit(w, WindowTiles(w, tw, th), tw, th) <==> multiset(Visit(w, WindowTiles(w, tw, th), tw, th))[c] > 0;
  }

  /** Statistics of a window err exactly when a tile of it does not decode or a kept pixel is in no decoded tile. */
  lemma WindowStatsErrIff<V>(ops: Ops<V>, cog: Cog<V>, band: nat, w: Window, keep: Cell -> bool)
    requires WellFormed(cog) && cog.levels != [] && band > 0
    ensures WindowStats(ops, cog, 0, w, band, keep).Ok? <==>
              && AllDecode(cog.source,
                           TileKeys(cog, 0, WindowTiles(w, cog.levels[0].tileWidth, cog.levels[0].tileHeight)))
              && AllKeptStored(IsStored(cog, band), keep, w)
    ensures WindowStats(ops, cog, 0, w, band, keep).Err? ==> WindowStats(ops, cog, 0, w, band, keep) == Err(Tiff)
  {
    var tw, th := cog.levels[0].tileWidth, cog.levels[0].tileHeight;
    var visited := Visit(w, WindowTiles(w, tw, th), tw, th);
    ScanErrs(ops, Stored(cog, 0, band), keep, Ok(Empty(ops)), visited);
    forall c ensures c in visited <==> Covers(w, c) {
      VisitedIsCovered(w, tw, th, c);
    }
    SomeKeptMissing(visited, Stored(cog, 0, band), IsStored(cog, band), keep, w);
  }

  lemma SomeKeptMissing<V>(visited: seq<Cell>, px: Cell -> Option<V>, stored: Cell -> bool, keep: Cell -> bool,
                           w: Window)
    requires forall c :: c in visited <==> Covers(w, c)
    requires forall c :: stored(c) == px(c).Some?
    ensures AllKeptStored(stored, keep, w) <==>
              !exists i :: 0 <= i < |visited| && keep(visited[i]) && px(visited[i]).None?
  {
    if c :| Covers(w, c) && keep(c) && !stored(c) {
      var i :| 0 <= i < |visited| && visited[i] == c;
    }
    forall i | 0 <= i < |visited| && AllKeptStored(stored, keep, w) ensures !keep(visited[i]) || px(visited[i]).Some? {
      assert visited[i] in visited;
    }
  }

  /** Exactly when the polygon array is an error and the polygon statistics are there: all tiles of the window decode,
      every pixel of the window inside the zone is in one of them, and some other pixel of the window is in none. The
      statistics are never the only error. */
  lemma PolygonBandErrsAloneIff<V>(ops: Ops<V>, cog: Cog<V>, z: Zone, band: nat)
    requires WellFormed(cog) && Located(cog, 0) && HasBand(cog, band)
    ensures var r, stats := PolygonBandOf(ops, cog, z, band), ZoneStats(ops, cog, z, band, 0);
            var window := ZoneWindow(cog, 0, z);
            && (r.Err? && stats.Ok? <==>
                  && window.Some? && ZoneReadable(cog, z, 0)
                  && AllKeptStored(IsStored(cog, band), CenterInside(cog, 0, z), window.value)
                  && !AllStored(IsStored(cog, band), window.value))
            && (stats.Err? ==> r == Err(Tiff) && stats == Err(Tiff))
  {
    var r, window := PolygonBandOf(ops, cog, z, band), ZoneWindow(cog, 0, z);
    PolygonBandByWindow(ops, cog, z, band, window, r);
    if window.Some? {
      WindowStatsErrIff(ops, cog, band, window.value, CenterInside(cog, 0, z));
      if !ZoneReadable(cog, z, 0) {
        UndecodedTileMissing(cog, band, window.value);
      }
    }
  }

  function Triangle(): Ring {
    [Point(0.0, 0.0), Point(2.0, 0.0), Point(0.0, 1.0)]
  }

  /** At half height the ray from p meets the slanted side at x = 1 and the upright one at x = 0. */
  lemma TriangleEdges(p: Point, a: Point, b: Point, c: Point)
    requires a == Point(0.0, 0.0) && b == Point(2.0, 0.0) && c == Point(0.0, 1.0)
    requires p.y == 0.5 && p.x >= 0.0
    ensures !Crosses(a, b, p) && !Crosses(c, a, p) && (Crosses(b, c, p) <==> p.x < 1.0)
  {
    HalfwayCrossing(b, c);
    HalfwayCrossing(c, a);
  }

  /** A side between heights 0 and 1 is met halfway. */
  lemma HalfwayCrossing(a: Point, b: Point)
    requires (a.y == 0.0 && b.y == 1.0) || (a.y == 1.0 && b.y == 0.0)
    ensures Straddles(a, b, 0.5) && CrossingX(a, b, 0.5) == (a.x + b.x) / 2.0
  {
    var d := b.x - a.x;
    if a.y == 0.0 {
      HalfOver(d, 1.0, 0.5);
    } else {
      HalfOver(d, -1.0, -0.5);
    }
  }

  lemma HalfOver(d: real, height: real, half: real)
    requires (height == 1.0 && half == 0.5) || (height == -1.0 && half == -0.5)
    ensures half * d / height == d / 2.0
  {
  }

  lemma ThreeSides(t: Ring, p: Point)
    requires |t| == 3
    ensures RingOdd(t, p) == (Crosses(t[2], t[0], p) != (Crosses(t[0], t[1], p) != Crosses(t[1], t[2], p)))
  {
    assert t[..2][..1] == [t[0]];
    assert PathOdd(t[..2], p) == (PathOdd([t[0]], p) != Crosses(t[0], t[1], p));
  }

  lemma TriangleParity(p: Point)
    requires p.y == 0.5 && p.x >= 0.0
    ensures RingOdd(Triangle(), p) <==> p.x < 1.0
  {
    var t := Triangle();
    TriangleEdges(p, t[0], t[1], t[2]);
    ThreeSides(t, p);
  }

  lemma TriangleBox(points: seq<Point>)
    requires points == Triangle()
    ensures TightBox(points, Bbox(0.0, 0.0, 2.0, 1.0))
  {
    assert points[0].x == 0.0 && points[1].x == 2.0 && points[0].y == 0.0 && points[2].y == 1.0;
  }

  /** It can: an image of two pixels whose one tile decodes with one column only, and a triangle around the first
      centre. The statistics see the one pixel that is there; the array is an error. */
  lemma PolygonBandCanErrAlone<V>(ops: Ops<V>, cog: Cog<V>, z: Zone, v: V)
    requires cog.levels == [Level(0, 2, 1, 2, 1, 1, 1)] && cog.georef == Some(Georef(0.0, 1.0, 1.0, 1.0))
    requires cog.numBands == 1 && cog.planar(0) == Chunky
    requires cog.source(KeyAt(cog, 0, Cell(0, 0))) == Tile(Array(1, 1, 1, [v], 8))
    requires z == Zone([Polygon(Triangle(), [])])
    ensures PolygonBandOf(ops, cog, z, 1) == Err(Tiff) && ZoneStats(ops, cog, z, 1, 0).Ok?
  {
    var w := Window(0, 1, 0, 0);
    TriangleWindow(cog, z, w);
    TriangleReadable(cog, z, w);
    TriangleStored(cog, z, w, v);
    PolygonBandErrsAloneIff(ops, cog, z, 1);
    PolygonBandByWindow(ops, cog, z, 1, Some(w), PolygonBandOf(ops, cog, z, 1));
  }

  lemma OneColumnStored<V>(cog: Cog<V>, v: V, c: Cell)
    requires cog.levels == [Level(0, 2, 1, 2, 1, 1, 1)] && cog.georef == Some(Georef(0.0, 1.0, 1.0, 1.0))
    requires cog.planar(0) == Chunky && cog.source(KeyAt(cog, 0, Cell(0, 0))) == Tile(Array(1, 1, 1, [v], 8))
    requires c.x < 2 && c.y == 0
    ensures IsStored(cog, 1)(c) <==> c.x == 0
  {
    assert TileOf(c, 2, 1) == Cell(0, 0) && c.y % 1 == 0 && c.x % 2 == c.x;
  }

  /** Of the two pixels of the window only the one inside the triangle is stored. */
  lemma TriangleStored<V>(cog: Cog<V>, z: Zone, w: Window, v: V)
    requires cog.levels == [Level(0, 2, 1, 2, 1, 1, 1)] && cog.georef == Some(Georef(0.0, 1.0, 1.0, 1.0))
    requires cog.planar(0) == Chunky && cog.source(KeyAt(cog, 0, Cell(0, 0))) == Tile(Array(1, 1, 1, [v], 8))
    requires z == Zone([Polygon(Triangle(), [])]) && w == Window(0, 1, 0, 0)
    ensures !AllStored(IsStored(cog, 1), w) && AllKeptStored(IsStored(cog, 1), CenterInside(cog, 0, z), w)
  {
    OneColumnStored(cog, v, Cell(0, 0));
    OneColumnStored(cog, v, Cell(1, 0));
    assert Covers(w, Cell(1, 0));
    forall c | Covers(w, c) && CenterInside(cog, 0, z)(c) ensures IsStored(cog, 1)(c) {
      TriangleHolds(cog, z, c);
      assert c == Cell(0, 0);
    }
  }

  lemma InTriangle(z: Zone, p: Point)
    requires z == Zone([Polygon(Triangle(), [])]) && p.y == 0.5 && p.x >= 0.0
    ensures Inside(z, p) <==> p.x < 1.0
  {
    TriangleParity(p);
    OnePolygon(z.polygons[0], p);
  }

  lemma TriangleHolds<V>(cog: Cog<V>, z: Zone, c: Cell)
    requires cog.levels == [Level(0, 2, 1, 2, 1, 1, 1)] && cog.georef == Some(Georef(0.0, 1.0, 1.0, 1.0))
    requires z == Zone([Polygon(Triangle(), [])]) && c.y == 0 && c.x < 2
    ensures CenterInside(cog, 0, z)(c) <==> c.x == 0
  {
    var p := CenterAt(cog, 0, c);
    assert p == Point(c.x as real + 0.5, 0.5) by {
      BaseGeoref(cog.georef.value, cog.levels[0]);
    }
    InTriangle(z, p);
  }

  lemma WholeImage(g: Georef, l: Level, box: Bbox)
    requires g == Georef(0.0, 1.0, 1.0, 1.0) && l.width == 2 && l.height == 1 && box == Bbox(0.0, 0.0, 2.0, 1.0)
    ensures CenterWindow(g, l, box) == Some(Window(0, 1, 0, 0))
  {
    ColumnInRange(g, l, box, 0);
    ColumnInRange(g, l, box, 1);
    RowInRange(g, l, box, 0);
  }

  lemma TriangleEnvelope(z: Zone, g: Polygon, box: Bbox)
    requires g.exterior == Triangle() && z.polygons == [g] && box == Bbox(0.0, 0.0, 2.0, 1.0)
    ensures EnvelopeOf(z) == Some(box)
  {
    OnePolygon(g, Point(0.5, 0.5));
    TriangleBox(g.exterior);
    EnvelopeIs(z, g.exterior, box);
  }

  lemma TriangleWindow<V>(cog: Cog<V>, z: Zone, w: Window)
    requires cog.levels == [Level(0, 2, 1, 2, 1, 1, 1)] && cog.georef == Some(Georef(0.0, 1.0, 1.0, 1.0))
    requires z == Zone([Polygon(Triangle(), [])]) && w == Window(0, 1, 0, 0)
    ensures ZoneWindow(cog, 0, z) == Some(w)
  {
    var box := Bbox(0.0, 0.0, 2.0, 1.0);
    TriangleEnvelope(z, Polygon(Triangle(), []), box);
    BaseWindow(cog, box);
    WholeImage(cog.georef.value, cog.levels[0], box);
  }

  lemma TriangleReadable<V>(cog: Cog<V>, z: Zone, w: Window)
    requires cog.levels == [Level(0, 2, 1, 2, 1, 1, 1)] && cog.georef == Some(Georef(0.0, 1.0, 1.0, 1.0))
    requires w == Window(0, 1, 0, 0) && ZoneWindow(cog, 0, z) == Some(w)
    requires cog.source(KeyAt(cog, 0, Cell(0, 0))).Tile?
    ensures ZoneReadable(cog, z, 0)
  {
    var tiles := WindowTiles(w, 2, 1);
    forall j | 0 <= j < |tiles| ensures tiles[j] == Cell(0, 0) {
      RectHas(0, 1, 0, 1, tiles[j]);
    }
  }

  /** The array of a box and its statistics: one errs iff the other does, and the fold of the array is the
      statistics. */
  lemma BoxBandAgrees<V(!new)>(ops: Ops<V>, cog: Cog<V>, b: Bbox, band: nat)
    requires WellFormed(cog) && Located(cog, 0) && HasBand(cog, band) && ExtremaCommute(ops)
    requires ValidBox(b)
    ensures var r, stats := BandOf(ops, cog, Some(b), band), BoxStats(ops, cog, b, band, 0);
            if r.Err? then r == Err(Tiff) && stats == Err(Tiff)
            else
              && r.value.Some? && SameButSum(stats, Ok(Fold(ops, r.value.value)))
              && (SumCommutes(ops) ==> stats == Ok(Fold(ops, r.value.value)))
  {
    var window := LevelWindow(cog, 0, b);
    WindowHolds(cog, 0, b, Cell(0, 0));
    if window.Some? {
      var w := window.value;
      BaseWindow(cog, b);
      if AllStored(IsStored(cog, band), w) {
        PixelsStored(cog, band, w);
        WindowIsFold(ops, cog, band, w, All(), Values(ops, Stored(cog, 0, band), Pixels(w)));
      } else {
        WindowStatsErrIff(ops, cog, band, w, All());
      }
    } else if cog.levels[0].width > 0 && cog.levels[0].height > 0 {
      BaseWindow(cog, b);
    }
  }
}
