/** Zonal statistics said pixel by pixel: over real numbers they are the number, sum, least and greatest value of the
    pixels of the level that are wanted and not nodata; and they come from the tiles of that file and level alone. */
module ZonalValues {
  import opened Wrappers
  import opened Arrays
  import opened TileStore
  import opened TileSource
  import opened Zone
  import opened Windows
  import opened Grids
  import opened Raster
  import opened WindowScan
  import opened Zonal
  import opened ScanValues

  // ---- where a value comes from -------------------------------------------------------------

  /** The value of pixel c is the sample of the file's own tile of this level under c, at what is left of c there. */
  lemma PixelIsSample<V>(cog: Cog<V>, level: nat, band: nat, c: Cell)
    requires WellFormed(cog) && level < |cog.levels| && band > 0
    ensures var tw, th := cog.levels[level].tileWidth, cog.levels[level].tileHeight;
            PixelAt(cog, level, band, c) ==
              match cog.source(Key(cog.reader, level, c.x / tw, c.y / th))
              case Tile(a) => SampleArray(a, cog.planar(level), c.y % th, c.x % tw, band - 1)
              case _ => None
  {
  }

  /** The keys fetched for tiles of a level name the file's reader, the level, and the tile. */
  lemma KeysOfTiles<V>(cog: Cog<V>, level: nat, tiles: seq<Cell>)
    ensures forall j :: 0 <= j < |tiles| ==>
              TileKeys(cog, level, tiles)[j] == Key(cog.reader, level, tiles[j].x, tiles[j].y)
  {
  }

  /** Two files alike but for their sources, which agree on the tiles of one reader and level. */
  ghost predicate SameLevel<V(!new)>(cog: Cog<V>, cog': Cog<V>, level: nat) {
    && cog' == cog.(source := cog'.source)
    && forall k: Key :: k.reader == cog.reader && k.level == level ==> cog.source(k) == cog'.source(k)
  }

  /** Statistics of a window depend on the tiles of its own file and level only. */
  lemma OtherTilesDoNotMatter<V(!new)>(ops: Ops<V>, cog: Cog<V>, cog': Cog<V>, level: nat, w: Window, band: nat,
                                       keep: Cell -> bool)
    requires WellFormed(cog) && level < |cog.levels| && band > 0 && SameLevel(cog, cog', level)
    ensures WindowStats(ops, cog, level, w, band, keep) == WindowStats(ops, cog', level, w, band, keep)
  {
    var tw, th := cog.levels[level].tileWidth, cog.levels[level].tileHeight;
    var tiles := WindowTiles(w, tw, th);
    var keys := TileKeys(cog, level, tiles);
    assert keys == TileKeys(cog', level, tiles);
    KeysOfTiles(cog, level, tiles);
    forall j | 0 <= j < |keys| ensures cog.source(keys[j]) == cog'.source(keys[j]) {
      assert keys[j].reader == cog.reader && keys[j].level == level;
    }
    var px, px', list := Stored(cog, level, band), Stored(cog', level, band), Visit(w, tiles, tw, th);
    forall i | 0 <= i < |list| ensures px(list[i]) == px'(list[i]) {
      PixelIsSample(cog, level, band, list[i]);
      PixelIsSample(cog', level, band, list[i]);
    }
    ScanSamePixels(ops, px, px', keep, Ok(Empty(ops)), list);
  }

  // ---- what the statistics are --------------------------------------------------------------

  /** The pixels of a level that are wanted and have a value that is not nodata. */
  function WantedPixels(isNodata: real -> bool, l: Level, px: Cell -> Option<real>, wanted: Cell -> bool): set<Cell> {
    set x: nat, y: nat | x < l.width && y < l.height && IsCounted(isNodata, px, wanted, Cell(x, y)) :: Cell(x, y)
  }

  /** Count, least and greatest of the pixels' values. */
  ghost predicate SumsUp(s: Stats<real>, px: Cell -> Option<real>, cells: set<Cell>) {
    && s.count == |cells|
    && (s.min.None? <==> cells == {}) && (s.max.None? <==> cells == {})
    && (s.min.Some? ==> exists c :: c in cells && px(c) == s.min)
    && (s.max.Some? ==> exists c :: c in cells && px(c) == s.max)
    && (forall c :: c in cells && px(c).Some? && s.min.Some? ==> s.min.value <= px(c).value)
    && (forall c :: c in cells && px(c).Some? && s.max.Some? ==> px(c).value <= s.max.value)
  }

  lemma SumsUpValues(s: Stats<real>, px: Cell -> Option<real>, cells: set<Cell>, values: seq<real>)
    requires ValuesOf(px, cells, values) && |values| == |cells| && s.count == |values|
    requires Least(values, s.min) && Greatest(values, s.max)
    ensures SumsUp(s, px, cells)
  {
  }

  lemma ImageListsOnce(l: Level)
    ensures NoneTwice(Image(l))
    ensures forall c :: c in Image(l) <==> InImage(l, c.x, c.y)
  {
    forall i, j | 0 <= i < j < |Image(l)| ensures Image(l)[i] != Image(l)[j] {
      RectIsRowMajor(0, l.width, 0, l.height, i, j);
    }
    forall c ensures c in Image(l) <==> InImage(l, c.x, c.y) {
      RectHas(0, l.width, 0, l.height, c);
    }
  }

  lemma WantedAreCounted(isNodata: real -> bool, l: Level, px: Cell -> Option<real>, wanted: Cell -> bool)
    ensures CountedCells(isNodata, px, wanted, Image(l)) == WantedPixels(isNodata, l, px, wanted)
  {
    ImageListsOnce(l);
    forall c: Cell | c in Image(l) && IsCounted(isNodata, px, wanted, c)
      ensures c in WantedPixels(isNodata, l, px, wanted)
    {
      assert c == Cell(c.x, c.y);
    }
  }

  /** The naive reading, pixel by pixel: an error iff a wanted pixel has no value, else what the wanted pixels sum up
      to. */
  lemma NaiveValues(isNodata: real -> bool, cog: Cog<real>, level: nat, band: nat, wanted: Cell -> bool)
    requires WellFormed(cog) && level < |cog.levels| && band > 0
    ensures var r, l, px := Naive(RealOps(isNodata), cog, level, band, wanted), cog.levels[level],
                            Stored(cog, level, band);
            && (r.Err? <==> exists c: Cell :: InImage(l, c.x, c.y) && wanted(c) && px(c).None?)
            && (r.Ok? ==> SumsUp(r.value, px, WantedPixels(isNodata, l, px, wanted))
                          && r.value.sum == Sum(Counted(isNodata, px, wanted, Image(l))))
  {
    var ops, l, px := RealOps(isNodata), cog.levels[level], Stored(cog, level, band);
    ImageListsOnce(l);
    ScanErrs(ops, px, wanted, Ok(Empty(ops)), Image(l));
    if Naive(ops, cog, level, band, wanted).Ok? {
      RealScan(isNodata, px, wanted, Image(l));
      ValuesOfCells(isNodata, px, wanted, Image(l));
      OneValueACell(isNodata, px, wanted, Image(l));
      WantedAreCounted(isNodata, l, px, wanted);
      SumsUpValues(Naive(ops, cog, level, band, wanted).value, px, WantedPixels(isNodata, l, px, wanted),
                   Counted(isNodata, px, wanted, Image(l)));
    } else {
      var i :| 0 <= i < |Image(l)| && wanted(Image(l)[i]) && px(Image(l)[i]).None?;
      assert Image(l)[i] in Image(l);
    }
    if c: Cell :| InImage(l, c.x, c.y) && wanted(c) && px(c).None? {
      var i :| 0 <= i < |Image(l)| && Image(l)[i] == c;
    }
  }

  /** Box statistics, pixel by pixel, of the level's pixels whose centre is in the closed box. */
  lemma BoxValues(isNodata: real -> bool, cog: Cog<real>, b: Bbox, band: nat, level: nat)
    requires WellFormed(cog) && Located(cog, level) && HasBand(cog, band)
    ensures var r, l, px := BoxStats(RealOps(isNodata), cog, b, band, level), cog.levels[level],
                            Stored(cog, level, band);
            var wanted := CenterInBox(cog, level, b);
            && (r.Err? <==> exists c: Cell :: InImage(l, c.x, c.y) && wanted(c) && px(c).None?)
            && (r.Ok? ==> SumsUp(r.value, px, WantedPixels(isNodata, l, px, wanted))
                          && r.value.sum == Sum(Counted(isNodata, px, wanted, Image(l))))
  {
    RealsCommute(isNodata);
    BoxIsNaive(RealOps(isNodata), cog, b, band, level);
    NaiveValues(isNodata, cog, level, band, CenterInBox(cog, level, b));
  }

  /** Polygon statistics, pixel by pixel, of the level's pixels whose centre is in the zone and does not escape its
      envelope. */
  lemma PolygonValues(isNodata: real -> bool, cog: Cog<real>, z: Zone, band: nat, level: nat)
    requires WellFormed(cog) && Located(cog, level) && HasBand(cog, band)
    ensures var r, l, px := ZoneStats(RealOps(isNodata), cog, z, band, level), cog.levels[level],
                            Stored(cog, level, band);
            var wanted := CenterInEnvelopePart(cog, level, z);
            && (r.Err? <==> !ZoneReadable(cog, z, level) ||
                            exists c: Cell :: InImage(l, c.x, c.y) && wanted(c) && px(c).None?)
            && (r.Ok? ==> SumsUp(r.value, px, WantedPixels(isNodata, l, px, wanted))
                          && r.value.sum == Sum(Counted(isNodata, px, wanted, Image(l))))
  {
    RealsCommute(isNodata);
    PolygonIsNaive(RealOps(isNodata), cog, z, band, level);
    NaiveValues(isNodata, cog, level, band, CenterInEnvelopePart(cog, level, z));
  }
}
