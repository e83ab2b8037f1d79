/** Batch zonal: one fetch for the tiles of all zones, and for each zone the scalar result. */
module Batch {
  import opened Wrappers
  import opened Arrays
  import opened TileSource
  import opened Zone
  import opened Windows
  import opened Grids
  import opened CellOrder
  import opened Raster
  import opened WindowScan
  import opened Zonal

  /** Add the tiles of one row to an ordered set. */
  method InsertRow(s: seq<Cell>, x0: nat, x1: nat, y: nat) returns (r: seq<Cell>)
    requires Increasing(s) && x0 <= x1
    ensures Increasing(r)
    ensures forall t :: t in r <==> t in s || t in Row(x0, x1, y)
  {
    r := s;
    for tx := x0 to x1
      invariant Increasing(r)
      invariant forall t :: t in r <==> t in s || t in Row(x0, tx, y)
    {
      r := Insert(r, Cell(tx, y));
    }
  }

  /** Add a rectangle of tiles to an ordered set. */
  method InsertRect(s: seq<Cell>, x0: nat, x1: nat, y0: nat, y1: nat) returns (r: seq<Cell>)
    requires Increasing(s) && x0 <= x1 && y0 <= y1
    ensures Increasing(r)
    ensures forall t :: t in r <==> t in s || t in Rect(x0, x1, y0, y1)
  {
    r := s;
    for ty := y0 to y1
      invariant Increasing(r)
      invariant forall t :: t in r <==> t in s || t in Rect(x0, x1, y0, ty)
    {
      r := InsertRow(r, x0, x1, ty);
    }
  }

  method InsertTiles(s: seq<Cell>, w: Window, tw: nat, th: nat) returns (r: seq<Cell>)
    requires Increasing(s) && Ordered(w) && tw > 0 && th > 0
    ensures Increasing(r)
    ensures forall t :: t in r <==> t in s || t in WindowTiles(w, tw, th)
  {
    DivMono(w.colMin, w.colMax, tw);
    DivMono(w.rowMin, w.rowMax, th);
    r := InsertRect(s, w.colMin / tw, w.colMax / tw + 1, w.rowMin / th, w.rowMax / th + 1);
  }

  /** Tile t of the raster decodes to byTile[t]. */
  ghost predicate Decoded<V>(cog: Cog<V>, level: nat, byTile: map<Cell, Array<V>>, t: Cell) {
    t in byTile && cog.source(KeyAt(cog, level, t)) == Tile(byTile[t])
  }

  /** The arrays of a list of tiles, looked up. */
  function LookedUp<V>(byTile: map<Cell, Array<V>>, tiles: seq<Cell>): (arrays: seq<Array<V>>)
    requires forall t :: t in tiles ==> t in byTile
    ensures |arrays| == |tiles|
  {
    seq(|tiles|, j requires 0 <= j < |tiles| => byTile[tiles[j]])
  }

  /** One zone, its tiles looked up in the fetched ones. */
  method ZoneFromTiles<V>(ops: Ops<V>, planar: Planar, tw: nat, th: nat, w: Window, band: nat, keep: Cell -> bool,
                          byTile: map<Cell, Array<V>>)
      returns (r: Scanned<V>)
    requires tw > 0 && th > 0 && band > 0 && Ordered(w) && forall t :: t in WindowTiles(w, tw, th) ==> t in byTile
    ensures r == FromArrays(ops, planar, tw, th, w, band, keep, WindowTiles(w, tw, th),
                            LookedUp(byTile, WindowTiles(w, tw, th)))
  {
    var tiles := TilesOf(w, tw, th);
    ghost var arrays := LookedUp(byTile, tiles);
    var acc := Empty(ops);
    for i := 0 to |tiles|
      invariant Ok(acc) == FromArrays(ops, planar, tw, th, w, band, keep, tiles[..i], arrays[..i])
    {
      TileTouches(w, tw, th, tiles[i]);
      var after := AccumulateTile(ops, acc, byTile[tiles[i]], planar, w, Corner(tiles[i], tw, th), tw, th, band, keep);
      FromArraysNext(ops, planar, tw, th, w, band, keep, tiles, arrays, i);
      if after.Err? {
        ErrorStays(ops, planar, tw, th, w, band, keep, tiles, arrays, i + 1);
        return after;
      }
      acc := after.value;
    }
    assert tiles[..|tiles|] == tiles && arrays[..|tiles|] == arrays;
    r := Ok(acc);
  }

  /** From the raster's own arrays a zone comes to its window's statistics. */
  lemma LookedUpIsWindowStats<V>(ops: Ops<V>, cog: Cog<V>, level: nat, w: Window, band: nat, keep: Cell -> bool,
                                 byTile: map<Cell, Array<V>>, tiles: seq<Cell>)
    requires WellFormed(cog) && level < |cog.levels| && band > 0
    requires tiles == WindowTiles(w, cog.levels[level].tileWidth, cog.levels[level].tileHeight)
    requires forall t :: t in tiles ==> t in byTile && Decoded(cog, level, byTile, t)
    ensures FromArrays(ops, cog.planar(level), cog.levels[level].tileWidth, cog.levels[level].tileHeight, w, band, keep,
                       tiles, LookedUp(byTile, tiles)) == WindowStats(ops, cog, level, w, band, keep)
  {
    var arrays := LookedUp(byTile, tiles);
    forall j | 0 <= j < |tiles| ensures cog.source(KeyAt(cog, level, tiles[j])) == Tile(arrays[j]) {
      assert Decoded(cog, level, byTile, tiles[j]);
    }
    FromArraysIsWindowStats(ops, cog, level, w, band, keep, tiles, arrays);
  }

  /** The windows of the zones. */
  method WindowsOf<V>(cog: Cog<V>, zones: seq<Zone>, level: nat) returns (windows: seq<Option<Window>>)
    requires WellFormed(cog) && Located(cog, level)
    ensures |windows| == |zones|
    ensures forall i :: 0 <= i < |zones| ==> windows[i] == ZoneWindow(cog, level, zones[i])
  {
    windows := [];
    for i := 0 to |zones|
      invariant |windows| == i
      invariant forall j :: 0 <= j < i ==> windows[j] == ZoneWindow(cog, level, zones[j])
    {
      var env := Envelope(zones[i]);
      var window := None;
      if env.Some? {
        TightBoxUnique(ExteriorPoints(zones[i].polygons), env.value, EnvelopeOf(zones[i]).value);
        window := LevelWindow(cog, level, env.value);
      }
      windows := windows + [window];
    }
  }

  /** t is a tile of one of the first n windows. */
  ghost predicate Used(windows: seq<Option<Window>>, tw: nat, th: nat, n: nat, t: Cell)
    requires tw > 0 && th > 0
  {
    exists i :: 0 <= i < n && i < |windows| && windows[i].Some? && t in WindowTiles(windows[i].value, tw, th)
  }

  /** The union of the windows' tiles, in (x, y) order. */
  method TileUnion(windows: seq<Option<Window>>, tw: nat, th: nat) returns (tiles: seq<Cell>)
    requires tw > 0 && th > 0
    requires forall i :: 0 <= i < |windows| && windows[i].Some? ==> Ordered(windows[i].value)
    ensures Increasing(tiles)
    ensures forall t :: t in tiles <==> Used(windows, tw, th, |windows|, t)
  {
    tiles := [];
    for i := 0 to |windows|
      invariant Increasing(tiles)
      invariant forall t :: t in tiles <==> Used(windows, tw, th, i, t)
    {
      ghost var before := tiles;
      if windows[i].Some? {
        tiles := InsertTiles(tiles, windows[i].value, tw, th);
      }
      forall t ensures t in tiles <==> Used(windows, tw, th, i + 1, t) {
        assert t in before <==> Used(windows, tw, th, i, t);
      }
    }
  }

  /** What the batch must return: every zone's scalar result, in order, or an error if one of them has one. */
  ghost predicate AllOk<V>(ops: Ops<V>, cog: Cog<V>, zones: seq<Zone>, band: nat, level: nat)
    requires WellFormed(cog)
  {
    forall i :: 0 <= i < |zones| ==> PolygonResult(ops, cog, zones[i], band, level).Ok?
  }

  ghost predicate Matches<V>(ops: Ops<V>, cog: Cog<V>, zones: seq<Zone>, band: nat, level: nat, out: seq<Stats<V>>)
    requires WellFormed(cog)
  {
    |out| <= |zones| && forall i :: 0 <= i < |out| ==> PolygonResult(ops, cog, zones[i], band, level) == Ok(out[i])
  }

  /** zonal_stats_polygon_batch_at. Nothing is assumed of add, min and max: each zone is visited in the scalar order. */
  method ZonalStatsPolygonBatchAt<V>(ops: Ops<V>, cog: Cog<V>, zones: seq<Zone>, band: nat, level: nat)
      returns (r: Result<seq<Stats<V>>, MetaError>)
    requires WellFormed(cog)
    ensures cog.georef.None? ==> r == Err(NotGeoreferenced)
    ensures cog.georef.Some? ==> (r.Ok? <==> AllOk(ops, cog, zones, band, level))
    ensures r.Ok? ==> |r.value| == |zones| && Matches(ops, cog, zones, band, level, r.value)
    ensures cog.georef.Some? && r.Err? ==> r == Err(Tiff)
  {
    if cog.georef.None? {
      return Err(NotGeoreferenced);
    }
    if level >= |cog.levels| || band == 0 || band > cog.numBands {
      return Ok(seq(|zones|, i => Empty(ops)));
    }
    var tw, th := cog.levels[level].tileWidth, cog.levels[level].tileHeight;
    var windows := WindowsOf(cog, zones, level);
    forall i | 0 <= i < |windows| && windows[i].Some? ensures Ordered(windows[i].value) {
      ZoneWindowHolds(cog, level, zones[i], Cell(0, 0));
    }
    var tiles := TileUnion(windows, tw, th);
    var arrays := FetchUncached(cog.source, TileKeys(cog, level, tiles));
    if arrays.Err? {
      UndecodedUnionErrs(ops, cog, zones, band, level, windows, tiles);
      return Err(Tiff);
    }
    var byTile := ZipTiles(tiles, arrays.value);
    ZippedIsDecoded(cog, level, tiles, arrays.value, byTile);
    forall i | 0 <= i < |windows| && windows[i].Some?
      ensures forall t :: t in WindowTiles(windows[i].value, tw, th) ==> Decoded(cog, level, byTile, t)
    {
      WindowTilesUsed(windows, tw, th, i);
    }
    r := ZonesFromTiles(ops, cog, zones, band, level, windows, byTile);
  }

  method OneZone<V>(ops: Ops<V>, cog: Cog<V>, z: Zone, band: nat, level: nat, window: Option<Window>,
                    byTile: map<Cell, Array<V>>) returns (r: Scanned<V>)
    requires WellFormed(cog) && Located(cog, level) && HasBand(cog, band) && window == ZoneWindow(cog, level, z)
    requires window.Some? ==> Ordered(window.value)
    requires window.Some? ==>
               var tiles := WindowTiles(window.value, cog.levels[level].tileWidth, cog.levels[level].tileHeight);
               forall t :: t in tiles ==> Decoded(cog, level, byTile, t)
    ensures r == PolygonResult(ops, cog, z, band, level)
  {
    if window.None? {
      return Ok(Empty(ops));
    }
    var tw, th, keep := cog.levels[level].tileWidth, cog.levels[level].tileHeight, CenterInside(cog, level, z);
    LookedUpIsWindowStats(ops, cog, level, window.value, band, keep, byTile, WindowTiles(window.value, tw, th));
    r := ZoneFromTiles(ops, cog.planar(level), tw, th, window.value, band, keep, byTile);
  }

  /** The zones one after the other, up to the first error. */
  method ZonesFromTiles<V>(ops: Ops<V>, cog: Cog<V>, zones: seq<Zone>, band: nat, level: nat,
                           windows: seq<Option<Window>>, byTile: map<Cell, Array<V>>)
      returns (r: Result<seq<Stats<V>>, MetaError>)
    requires WellFormed(cog) && Located(cog, level) && HasBand(cog, band) && |windows| == |zones|
    requires forall i :: 0 <= i < |zones| ==> windows[i] == ZoneWindow(cog, level, zones[i])
    requires forall i :: 0 <= i < |windows| && windows[i].Some? ==>
               && Ordered(windows[i].value)
               && var tiles := WindowTiles(windows[i].value, cog.levels[level].tileWidth, cog.levels[level].tileHeight);
                  forall t :: t in tiles ==> Decoded(cog, level, byTile, t)
    ensures r.Ok? <==> AllOk(ops, cog, zones, band, level)
    ensures r.Ok? ==> |r.value| == |zones| && Matches(ops, cog, zones, band, level, r.value)
    ensures r.Err? ==> r == Err(Tiff)
  {
    var out := [];
    for i := 0 to |zones|
      invariant |out| == i && Matches(ops, cog, zones, band, level, out)
    {
      var result := OneZone(ops, cog, zones[i], band, level, windows[i], byTile);
      if result.Err? {
        PolygonErrorIsTiff(ops, cog, zones[i], band, level);
        return Err(Tiff);
      }
      out := out + [result.value];
    }
    r := Ok(out);
  }

  /** Each tile is mapped to its array. */
  ghost predicate Zips<V>(byTile: map<Cell, Array<V>>, tiles: seq<Cell>, arrays: seq<Array<V>>) {
    |arrays| == |tiles| && forall j :: 0 <= j < |tiles| ==> tiles[j] in byTile && byTile[tiles[j]] == arrays[j]
  }

  method ZipTiles<V>(tiles: seq<Cell>, arrays: seq<Array<V>>) returns (byTile: map<Cell, Array<V>>)
    requires Increasing(tiles) && |arrays| == |tiles|
    ensures Zips(byTile, tiles, arrays)
  {
    byTile := map[];
    for i := 0 to |tiles|
      invariant Zips(byTile, tiles[..i], arrays[..i])
    {
      assert forall j :: 0 <= j < i ==> tiles[j] == tiles[..i][j] && tiles[j] != tiles[i];
      byTile := byTile[tiles[i] := arrays[i]];
    }
    assert tiles[..|tiles|] == tiles && arrays[..|tiles|] == arrays;
  }

  /** From fetched arrays, each tile is mapped to what it decodes to. */
  lemma ZippedIsDecoded<V>(cog: Cog<V>, level: nat, tiles: seq<Cell>, arrays: seq<Array<V>>,
                           byTile: map<Cell, Array<V>>)
    requires FetchAll(cog.source, TileKeys(cog, level, tiles)) == Ok(arrays) && Zips(byTile, tiles, arrays)
    ensures forall t :: t in tiles ==> Decoded(cog, level, byTile, t)
  {
    FetchedArrays(cog, level, tiles, arrays);
  }

  lemma WindowTilesUsed(windows: seq<Option<Window>>, tw: nat, th: nat, i: nat)
    requires tw > 0 && th > 0 && i < |windows| && windows[i].Some?
    ensures forall t :: t in WindowTiles(windows[i].value, tw, th) ==> Used(windows, tw, th, |windows|, t)
  {
  }

  /** A tile of the union that does not decode is an error of the zone that uses it. */
  lemma UndecodedUnionErrs<V>(ops: Ops<V>, cog: Cog<V>, zones: seq<Zone>, band: nat, level: nat,
                              windows: seq<Option<Window>>, tiles: seq<Cell>)
    requires WellFormed(cog) && Located(cog, level) && HasBand(cog, band) && |windows| == |zones|
    requires forall i :: 0 <= i < |zones| ==> windows[i] == ZoneWindow(cog, level, zones[i])
    requires forall t :: t in tiles ==>
              Used(windows, cog.levels[level].tileWidth, cog.levels[level].tileHeight, |windows|, t)
    requires !AllDecode(cog.source, TileKeys(cog, level, tiles))
    ensures !AllOk(ops, cog, zones, band, level)
  {
    var tw, th := cog.levels[level].tileWidth, cog.levels[level].tileHeight;
    var j :| 0 <= j < |tiles| && !cog.source(TileKeys(cog, level, tiles)[j]).Tile?;
    assert Used(windows, tw, th, |windows|, tiles[j]);
    var i :| 0 <= i < |windows| && windows[i].Some? && tiles[j] in WindowTiles(windows[i].value, tw, th);
    var own := WindowTiles(windows[i].value, tw, th);
    var k :| 0 <= k < |own| && own[k] == tiles[j];
    assert TileKeys(cog, level, own)[k] == TileKeys(cog, level, tiles)[j];
    assert PolygonResult(ops, cog, zones[i], band, level).Err?;
  }

  lemma PolygonErrorIsTiff<V>(ops: Ops<V>, cog: Cog<V>, z: Zone, band: nat, level: nat)
    requires WellFormed(cog) && cog.georef.Some? && PolygonResult(ops, cog, z, band, level).Err?
    ensures PolygonResult(ops, cog, z, band, level) == Err(Tiff)
  {
    var tw, th, w := cog.levels[level].tileWidth, cog.levels[level].tileHeight, ZoneWindow(cog, level, z).value;
    ScanErrs(ops, Stored(cog, level, band), CenterInside(cog, level, z), Ok(Empty(ops)),
             Visit(w, WindowTiles(w, tw, th), tw, th));
  }
}
