/** The tile listing: level grids checked on opening, tile ids, tile boxes, and pruning by a box. */
module TileListing {
  import opened Wrappers
  import opened TileSource
  import opened Zone
  import opened ZoneParity
  import opened Windows
  import opened Grids
  import opened Raster
  import opened WindowScan
  import opened Zonal

  // ---- tile ids -----------------------------------------------------------------------------

  const MAX_TILE_INDEX := 0xFF_FFFF

  /** level in 8 bits, x in 24, y in 24; None when an index does not fit. */
  function PackTileKey(level: nat, x: nat, y: nat): Option<nat> {
    if x > MAX_TILE_INDEX || y > MAX_TILE_INDEX then None else Some(level * 0x1_0000_0000_0000 + x * 0x100_0000 + y)
  }

  function UnpackTileKey(key: nat): (nat, nat, nat) {
    (key / 0x1_0000_0000_0000 % 0x100, key / 0x100_0000 % 0x100_0000, key % 0x100_0000)
  }

  /** On 64 bits, shifting and or-ing parts of those widths is the sum above. */
  lemma OrIsSum(level: bv64, x: bv64, y: bv64)
    requires level <= 0xFF && x <= 0xFF_FFFF && y <= 0xFF_FFFF
    ensures (level << 48) | (x << 24) | y == level * 0x1_0000_0000_0000 + x * 0x100_0000 + y
  {
  }

  lemma LevelDigit(level: nat, rest: nat)
    requires level < 0x100 && rest < 0x1_0000_0000_0000
    ensures (level * 0x1_0000_0000_0000 + rest) / 0x1_0000_0000_0000 % 0x100 == level
  {
  }

  lemma LowDigits(high: nat, x: nat, y: nat)
    requires x < 0x100_0000 && y < 0x100_0000
    ensures ((high * 0x100_0000 + x) * 0x100_0000 + y) / 0x100_0000 % 0x100_0000 == x
    ensures ((high * 0x100_0000 + x) * 0x100_0000 + y) % 0x100_0000 == y
  {
    assert ((high * 0x100_0000 + x) * 0x100_0000 + y) / 0x100_0000 == high * 0x100_0000 + x;
  }

  /** Every id unpacks to what was packed, and every 56-bit number is the id of what it unpacks to. */
  lemma PackRoundTrip(level: nat, x: nat, y: nat)
    requires level < 0x100 && x <= MAX_TILE_INDEX && y <= MAX_TILE_INDEX
    ensures PackTileKey(level, x, y).Some? && UnpackTileKey(PackTileKey(level, x, y).value) == (level, x, y)
  {
    KeyParts(level * 0x1_0000_0000_0000 + x * 0x100_0000 + y, level, x, y);
  }

  /** A tile has an id iff both of its coordinates fit 24 bits: the level above bit 48, x above bit 24, y below. */
  lemma IdDigits(level: nat, x: nat, y: nat)
    requires level < 0x100
    ensures PackTileKey(level, x, y).Some? <==> x < 0x100_0000 && y < 0x100_0000
    ensures PackTileKey(level, x, y).Some? ==>
              var id := PackTileKey(level, x, y).value;
              id / 0x100_0000 / 0x100_0000 == level && id / 0x100_0000 % 0x100_0000 == x && id % 0x100_0000 == y
  {
    if x < 0x100_0000 && y < 0x100_0000 {
      var id, high := PackTileKey(level, x, y).value, level * 0x100_0000 + x;
      assert id == high * 0x100_0000 + y;
      assert id / 0x100_0000 == high;
    }
  }

  lemma KeyParts(key: nat, level: nat, x: nat, y: nat)
    requires level < 0x100 && x < 0x100_0000 && y < 0x100_0000
    requires key == level * 0x1_0000_0000_0000 + x * 0x100_0000 + y
    ensures UnpackTileKey(key) == (level, x, y)
  {
    LevelPart(key, level, x * 0x100_0000 + y);
    LowParts(key, level, x, y);
  }

  lemma LevelPart(key: nat, level: nat, rest: nat)
    requires level < 0x100 && rest < 0x1_0000_0000_0000 && key == level * 0x1_0000_0000_0000 + rest
    ensures key / 0x1_0000_0000_0000 % 0x100 == level
  {
    LevelDigit(level, rest);
  }

  lemma LowParts(key: nat, level: nat, x: nat, y: nat)
    requires x < 0x100_0000 && y < 0x100_0000 && key == level * 0x1_0000_0000_0000 + x * 0x100_0000 + y
    ensures key / 0x100_0000 % 0x100_0000 == x && key % 0x100_0000 == y
  {
    LowDigits(level, x, y);
    assert key == (level * 0x100_0000 + x) * 0x100_0000 + y;
  }

  lemma Digits(key: nat) returns (level: nat, x: nat, y: nat)
    requires key < 0x100_0000_0000_0000
    ensures level < 0x100 && x < 0x100_0000 && y < 0x100_0000
    ensures key == level * 0x1_0000_0000_0000 + x * 0x100_0000 + y
  {
    var high := key / 0x100_0000;
    y := key % 0x100_0000;
    level, x := high / 0x100_0000, high % 0x100_0000;
    assert key == high * 0x100_0000 + y && high == level * 0x100_0000 + x;
  }

  lemma UnpackRoundTrip(key: nat)
    requires key < 0x100_0000_0000_0000
    ensures var (level, x, y) := UnpackTileKey(key); PackTileKey(level, x, y) == Some(key)
  {
    var level, x, y := Digits(key);
    PackRoundTrip(level, x, y);
    assert PackTileKey(level, x, y) == Some(key);
  }

  // ---- level grids --------------------------------------------------------------------------

  /** One image file directory, as far as the grid checks read it. */
  datatype Ifd = Ifd(
    width: nat,
    height: nat,
    tileWidth: Option<nat>,
    tileHeight: Option<nat>,
    tileCount: Option<(nat, nat)>)

  /** The level directory i gives, or the error it is refused with. Tile counts are cut to 32 bits before they are
      checked. */
  function LevelOf(ifd: Ifd, i: nat): Result<Level, MetaError> {
    if i > 255 then Err(KeyOverflow)
    else if ifd.tileWidth.None? || ifd.tileHeight.None? || ifd.tileCount.None? then Err(NotTiled(i))
    else
      var (tilesX, tilesY) := (ifd.tileCount.value.0 % 0x1_0000_0000, ifd.tileCount.value.1 % 0x1_0000_0000);
      if tilesX > MAX_TILE_INDEX + 1 || tilesY > MAX_TILE_INDEX + 1 then Err(KeyOverflow)
      else Ok(Level(i, ifd.width, ifd.height, ifd.tileWidth.value, ifd.tileHeight.value, tilesX, tilesY))
  }

  /** Levels are numbered from 0, at most 256 of them, each with a grid whose indices fit 24 bits. */
  predicate Gridded(levels: seq<Level>) {
    && |levels| <= 256
    && forall i :: 0 <= i < |levels| ==>
         levels[i].level == i && levels[i].tilesX <= MAX_TILE_INDEX + 1 && levels[i].tilesY <= MAX_TILE_INDEX + 1
  }

  /** Directory i can be a level: its number fits 8 bits, it is tiled, and its tile counts, cut to 32 bits, fit 24-bit
      indices. */
  predicate Acceptable(ifd: Ifd, i: nat) {
    && i < 0x100 && ifd.tileWidth.Some? && ifd.tileHeight.Some? && ifd.tileCount.Some?
    && ifd.tileCount.value.0 % 0x1_0000_0000 <= 0x100_0000 && ifd.tileCount.value.1 % 0x1_0000_0000 <= 0x100_0000
  }

  /** l is directory i, field by field. */
  predicate IsLevelOf(l: Level, ifd: Ifd, i: nat) {
    && l.level == i && l.width == ifd.width && l.height == ifd.height
    && ifd.tileWidth == Some(l.tileWidth) && ifd.tileHeight == Some(l.tileHeight)
    && ifd.tileCount.Some? && l.tilesX == ifd.tileCount.value.0 % 0x1_0000_0000
    && l.tilesY == ifd.tileCount.value.1 % 0x1_0000_0000
  }

  ghost predicate FirstRefused(ifds: seq<Ifd>, i: nat) {
    i < |ifds| && !Acceptable(ifds[i], i) && forall j :: 0 <= j < i ==> Acceptable(ifds[j], j)
  }

  /** A directory past the 256th or with too many tiles overflows the tile id, one without tiles is not tiled. */
  predicate Refuses(ifd: Ifd, i: nat, e: MetaError) {
    var tiled := ifd.tileWidth.Some? && ifd.tileHeight.Some? && ifd.tileCount.Some?;
    e == if i < 0x100 && !tiled then NotTiled(i) else KeyOverflow
  }

  /** build_meta: all levels, or the error of the first directory that is refused. */
  method BuildLevels(ifds: seq<Ifd>) returns (r: Result<seq<Level>, MetaError>)
    ensures r.Ok? <==> forall i :: 0 <= i < |ifds| ==> Acceptable(ifds[i], i)
    ensures r.Ok? ==> |r.value| == |ifds| && Gridded(r.value)
    ensures r.Ok? ==> forall i :: 0 <= i < |ifds| ==> IsLevelOf(r.value[i], ifds[i], i)
    ensures r.Err? ==> exists i: nat :: FirstRefused(ifds, i) && Refuses(ifds[i], i, r.error)
  {
    var levels := [];
    for i := 0 to |ifds|
      invariant |levels| == i <= 256
      invariant Gridded(levels)
      invariant forall j :: 0 <= j < i ==> Acceptable(ifds[j], j) && IsLevelOf(levels[j], ifds[j], j)
    {
      var level := LevelOf(ifds[i], i);
      if level.Err? {
        assert FirstRefused(ifds, i) && Refuses(ifds[i], i, level.error);
        return Err(level.error);
      }
      levels := levels + [level.value];
    }
    r := Ok(levels);
  }

  // ---- the listing --------------------------------------------------------------------------

  datatype TileRow = TileRow(id: nat, level: nat, x: nat, y: nat, cols: nat, rows: nat, bbox: Option<Bbox>)

  /** The world box of the pixels x0 to x1, y0 to y1 of a level. */
  function PixelBox(s: Georef, x0: int, x1: int, y0: int, y1: int): Bbox {
    Bbox(s.originX + x0 as real * s.pixelX, s.originY - y1 as real * s.pixelY,
         s.originX + x1 as real * s.pixelX, s.originY - y0 as real * s.pixelY)
  }

  /** The part of the extent one tile holds, cut at the image border. */
  function TileBbox(g: Georef, l0: Level, l: Level, t: Cell): Bbox
    requires l.width > 0 && l.height > 0
  {
    PixelBox(LevelGeoref(g, l0, l), t.x * l.tileWidth, MinInt((t.x + 1) * l.tileWidth, l.width),
             t.y * l.tileHeight, MinInt((t.y + 1) * l.tileHeight, l.height))
  }

  /** Closed boxes meet, touching included. */
  predicate BboxIntersects(a: Bbox, b: Bbox) {
    a.xmin <= b.xmax && a.xmax >= b.xmin && a.ymin <= b.ymax && a.ymax >= b.ymin
  }

  /** The box a row gets, by level and tile. */
  type Boxes = (nat, Cell) -> Option<Bbox>

  /** None without a georeference, else the tile's part of the extent. On a level without pixels the engine divides by
      zero, and nothing is said of its boxes. */
  ghost predicate TrueBoxes<V>(cog: Cog<V>, box: Boxes) {
    && (cog.georef.None? ==> forall level, t :: box(level, t) == None)
    && (cog.georef.Some? ==> forall level: nat, t ::
          level < |cog.levels| && cog.levels[level].width > 0 && cog.levels[level].height > 0 ==>
          box(level, t) == Some(TileBbox(cog.georef.value, cog.levels[0], cog.levels[level], t)))
  }

  /** The row of one tile. Its id is always there: the grid was checked on opening. */
  function RowOf<V>(cog: Cog<V>, box: Boxes, level: nat, t: Cell): TileRow
    requires Gridded(cog.levels) && level < |cog.levels|
    requires t.x < cog.levels[level].tilesX && t.y < cog.levels[level].tilesY
  {
    var l := cog.levels[level];
    TileRow(PackTileKey(l.level, t.x, t.y).value, l.level, t.x, t.y, l.tileWidth, l.tileHeight, box(level, t))
  }

  function LevelTiles(l: Level): seq<Cell> {
    Rect(0, l.tilesX, 0, l.tilesY)
  }

  function LevelRows<V>(cog: Cog<V>, box: Boxes, level: nat): (rows: seq<TileRow>)
    requires Gridded(cog.levels) && level < |cog.levels|
    ensures |rows| == |LevelTiles(cog.levels[level])|
  {
    var tiles := LevelTiles(cog.levels[level]);
    seq(|tiles|, i requires 0 <= i < |tiles| =>
      RectHas(0, cog.levels[level].tilesX, 0, cog.levels[level].tilesY, tiles[i]);
      RowOf(cog, box, level, tiles[i]))
  }

  /** The rows of the first n levels. */
  function RowsTo<V>(cog: Cog<V>, box: Boxes, n: nat): seq<TileRow>
    requires Gridded(cog.levels) && n <= |cog.levels|
  {
    if n == 0 then [] else RowsTo(cog, box, n - 1) + LevelRows(cog, box, n - 1)
  }

  /** enumerate_tiles: level by level, row by row, column by column. */
  function EnumerateTiles<V>(cog: Cog<V>, box: Boxes): seq<TileRow>
    requires Gridded(cog.levels)
  {
    RowsTo(cog, box, |cog.levels|)
  }

  /** The rows whose box meets b, in order. */
  function Meeting(rows: seq<TileRow>, b: Bbox): seq<TileRow> {
    if rows == [] then []
    else
      var front, last := Meeting(rows[..|rows| - 1], b), rows[|rows| - 1];
      if last.bbox.Some? && BboxIntersects(last.bbox.value, b) then front + [last] else front
  }

  function EnumerateTilesFiltered<V>(cog: Cog<V>, box: Boxes, filter: Option<Bbox>): Result<seq<TileRow>, MetaError>
    requires Gridded(cog.levels)
  {
    if filter.None? then Ok(EnumerateTiles(cog, box))
    else if !ValidBox(filter.value) then Err(InvalidFilter)
    else if cog.georef.None? then Err(FilterWithoutGeoref)
    else Ok(Meeting(EnumerateTiles(cog, box), filter.value))
  }

  // ---- each tile once -----------------------------------------------------------------------

  predicate ListedBefore(a: TileRow, b: TileRow) {
    a.level < b.level || (a.level == b.level && (a.y < b.y || (a.y == b.y && a.x < b.x)))
  }

  /** A row describes a tile of its level's grid: its tile size, its box, and an id that says which it is. */
  ghost predicate Describes<V>(cog: Cog<V>, box: Boxes, row: TileRow)
    requires Gridded(cog.levels)
  {
    && row.level < |cog.levels| && row.x < cog.levels[row.level].tilesX && row.y < cog.levels[row.level].tilesY
    && row.cols == cog.levels[row.level].tileWidth && row.rows == cog.levels[row.level].tileHeight
    && row.bbox == box(row.level, Cell(row.x, row.y))
    && UnpackTileKey(row.id) == (row.level, row.x, row.y)
  }

  lemma LevelRowAt<V>(cog: Cog<V>, box: Boxes, level: nat, i: nat)
    requires Gridded(cog.levels) && level < |cog.levels| && i < |LevelRows(cog, box, level)|
    ensures var t, row := LevelTiles(cog.levels[level])[i], LevelRows(cog, box, level)[i];
            Describes(cog, box, row) && row.level == level && Cell(row.x, row.y) == t
  {
    var l := cog.levels[level];
    var t := LevelTiles(l)[i];
    RectHas(0, l.tilesX, 0, l.tilesY, t);
    PackRoundTrip(level, t.x, t.y);
    assert Cell(t.x, t.y) == t;
  }

  /** Two rows of one level, in the order they are listed. */
  lemma LevelRowsInOrder<V>(cog: Cog<V>, box: Boxes, level: nat, rows: seq<TileRow>, p: nat, q: nat)
    requires Gridded(cog.levels) && level < |cog.levels| && rows == LevelRows(cog, box, level) && p <= q < |rows|
    ensures Describes(cog, box, rows[q]) && rows[p].level == rows[q].level == level
    ensures p < q ==> ListedBefore(rows[p], rows[q])
  {
    LevelRowAt(cog, box, level, p);
    LevelRowAt(cog, box, level, q);
    if p < q {
      RectIsRowMajor(0, cog.levels[level].tilesX, 0, cog.levels[level].tilesY, p, q);
    }
  }

  /** Two rows of the listing by level and place in it: row i of level k, and not before it row j of level l. */
  lemma {:induction false} Places<V>(cog: Cog<V>, box: Boxes, n: nat, rows: seq<TileRow>, p: nat, q: nat)
      returns (k: nat, i: nat, l: nat, j: nat)
    requires Gridded(cog.levels) && n <= |cog.levels| && rows == RowsTo(cog, box, n) && p <= q < |rows|
    ensures k <= l < n && i < |LevelRows(cog, box, k)| && j < |LevelRows(cog, box, l)|
    ensures rows[p] == LevelRows(cog, box, k)[i] && rows[q] == LevelRows(cog, box, l)[j]
    ensures k == l ==> j - i == q - p
    decreases n
  {
    var before, last := RowsTo(cog, box, n - 1), LevelRows(cog, box, n - 1);
    assert rows == before + last;
    if q < |before| {
      k, i, l, j := Places(cog, box, n - 1, before, p, q);
    } else {
      l, j := n - 1, q - |before|;
      if p < |before| {
        var l', j';
        k, i, l', j' := Places(cog, box, n - 1, before, p, p);
      } else {
        k, i := n - 1, p - |before|;
      }
    }
  }

  lemma RowsInOrder<V>(cog: Cog<V>, box: Boxes, rows: seq<TileRow>, p: nat, q: nat)
    requires Gridded(cog.levels) && rows == EnumerateTiles(cog, box) && p <= q < |rows|
    ensures Describes(cog, box, rows[q])
    ensures p < q ==> ListedBefore(rows[p], rows[q])
  {
    var k, i, l, j := Places(cog, box, |cog.levels|, rows, p, q);
    LevelRowsInOrder(cog, box, k, LevelRows(cog, box, k), i, i);
    LevelRowsInOrder(cog, box, l, LevelRows(cog, box, l), if k == l then i else j, j);
  }

  lemma RowOnLevel<V>(cog: Cog<V>, box: Boxes, level: nat, t: Cell)
    requires Gridded(cog.levels) && level < |cog.levels|
    requires t.x < cog.levels[level].tilesX && t.y < cog.levels[level].tilesY
    ensures RowOf(cog, box, level, t) in LevelRows(cog, box, level)
  {
    var l := cog.levels[level];
    RectHas(0, l.tilesX, 0, l.tilesY, t);
    var i :| 0 <= i < |LevelTiles(l)| && LevelTiles(l)[i] == t;
    assert LevelRows(cog, box, level)[i] == RowOf(cog, box, level, t);
  }

  lemma {:induction false} RowListed<V>(cog: Cog<V>, box: Boxes, n: nat, level: nat, t: Cell)
    requires Gridded(cog.levels) && level < n <= |cog.levels| && t.x < cog.levels[level].tilesX
    requires t.y < cog.levels[level].tilesY
    ensures RowOf(cog, box, level, t) in RowsTo(cog, box, n)
    decreases n
  {
    if level < n - 1 {
      RowListed(cog, box, n - 1, level, t);
    } else {
      RowOnLevel(cog, box, level, t);
    }
  }

  /** The listing has every tile of every grid, nothing else, and no id twice, level by level, row by row and column by
      column, whatever the boxes. */
  lemma EachTileOnce<V>(cog: Cog<V>, box: Boxes)
    requires Gridded(cog.levels)
    ensures forall level, t: Cell ::
              0 <= level < |cog.levels| && t.x < cog.levels[level].tilesX && t.y < cog.levels[level].tilesY ==>
              RowOf(cog, box, level, t) in EnumerateTiles(cog, box)
    ensures forall p :: 0 <= p < |EnumerateTiles(cog, box)| ==> Describes(cog, box, EnumerateTiles(cog, box)[p])
    ensures forall p, q :: 0 <= p < q < |EnumerateTiles(cog, box)| ==>
              && ListedBefore(EnumerateTiles(cog, box)[p], EnumerateTiles(cog, box)[q])
              && EnumerateTiles(cog, box)[p].id != EnumerateTiles(cog, box)[q].id
  {
    var rows := EnumerateTiles(cog, box);
    forall level, t: Cell |
      0 <= level < |cog.levels| && t.x < cog.levels[level].tilesX && t.y < cog.levels[level].tilesY
      ensures RowOf(cog, box, level, t) in rows
    {
      RowListed(cog, box, |cog.levels|, level, t);
    }
    forall p | 0 <= p < |rows| ensures Describes(cog, box, rows[p]) {
      RowsInOrder(cog, box, rows, p, p);
    }
    forall p, q | 0 <= p < q < |rows| ensures ListedBefore(rows[p], rows[q]) && rows[p].id != rows[q].id {
      RowsInOrder(cog, box, rows, p, q);
      assert Describes(cog, box, rows[p]) && Describes(cog, box, rows[q]);
    }
  }

  // ---- boxes --------------------------------------------------------------------------------

  /** The grid is just large enough for the image. */
  predicate GridFits(l: Level) {
    && l.tilesX > 0 && (l.tilesX - 1) * l.tileWidth < l.width <= l.tilesX * l.tileWidth
    && l.tilesY > 0 && (l.tilesY - 1) * l.tileHeight < l.height <= l.tilesY * l.tileHeight
  }

  lemma TileEdge(n: nat, size: nat, count: nat, i: nat)
    requires count > 0 && (count - 1) * size < n <= count * size && i < count
    ensures i + 1 < count ==> MinInt((i + 1) * size, n) == (i + 1) * size
    ensures i + 1 == count ==> MinInt((i + 1) * size, n) == n
  {
    MulMono(i + 1, count - 1, size);
  }

  /** Left and right edge of a tile's box, at pixel columns `left` and `right`. */
  lemma ColumnEdges(g: Georef, l0: Level, l: Level, t: Cell, left: int, right: int)
    requires l.width > 0 && l.height > 0
    requires left == t.x * l.tileWidth && right == MinInt((t.x + 1) * l.tileWidth, l.width)
    ensures TileBbox(g, l0, l, t).xmin == g.originX + left as real * LevelGeoref(g, l0, l).pixelX
    ensures TileBbox(g, l0, l, t).xmax == g.originX + right as real * LevelGeoref(g, l0, l).pixelX
  {
  }

  lemma RowEdges(g: Georef, l0: Level, l: Level, t: Cell, top: int, bottom: int)
    requires l.width > 0 && l.height > 0
    requires top == t.y * l.tileHeight && bottom == MinInt((t.y + 1) * l.tileHeight, l.height)
    ensures TileBbox(g, l0, l, t).ymax == g.originY - top as real * LevelGeoref(g, l0, l).pixelY
    ensures TileBbox(g, l0, l, t).ymin == g.originY - bottom as real * LevelGeoref(g, l0, l).pixelY
  {
  }

  lemma ColumnsAbut(g: Georef, l0: Level, l: Level, t: Cell)
    requires GridFits(l) && l.width > 0 && l.height > 0 && t.x < l.tilesX
    ensures t.x + 1 < l.tilesX ==> TileBbox(g, l0, l, t).xmax == TileBbox(g, l0, l, Cell(t.x + 1, t.y)).xmin
    ensures t.x + 1 == l.tilesX ==>
              TileBbox(g, l0, l, t).xmax == g.originX + l.width as real * LevelGeoref(g, l0, l).pixelX
  {
    TileEdge(l.width, l.tileWidth, l.tilesX, t.x);
    if t.x + 1 < l.tilesX {
      NeighboursMeet(g, l0, l, t, (t.x + 1) * l.tileWidth);
    } else {
      ColumnEdges(g, l0, l, t, t.x * l.tileWidth, l.width);
    }
  }

  lemma NeighboursMeet(g: Georef, l0: Level, l: Level, t: Cell, edge: int)
    requires l.width > 0 && l.height > 0 && edge == (t.x + 1) * l.tileWidth == MinInt(edge, l.width)
    ensures TileBbox(g, l0, l, t).xmax == TileBbox(g, l0, l, Cell(t.x + 1, t.y)).xmin
  {
    var next := Cell(t.x + 1, t.y);
    ColumnEdges(g, l0, l, t, t.x * l.tileWidth, edge);
    ColumnEdges(g, l0, l, next, edge, MinInt((next.x + 1) * l.tileWidth, l.width));
  }

  lemma RowsAbut(g: Georef, l0: Level, l: Level, t: Cell)
    requires GridFits(l) && l.width > 0 && l.height > 0 && t.y < l.tilesY
    ensures t.y + 1 < l.tilesY ==> TileBbox(g, l0, l, t).ymin == TileBbox(g, l0, l, Cell(t.x, t.y + 1)).ymax
    ensures t.y + 1 == l.tilesY ==>
              TileBbox(g, l0, l, t).ymin == g.originY - l.height as real * LevelGeoref(g, l0, l).pixelY
  {
    TileEdge(l.height, l.tileHeight, l.tilesY, t.y);
    if t.y + 1 < l.tilesY {
      NeighbourRowsMeet(g, l0, l, t, (t.y + 1) * l.tileHeight);
    } else {
      RowEdges(g, l0, l, t, t.y * l.tileHeight, l.height);
    }
  }

  lemma NeighbourRowsMeet(g: Georef, l0: Level, l: Level, t: Cell, edge: int)
    requires l.width > 0 && l.height > 0 && edge == (t.y + 1) * l.tileHeight == MinInt(edge, l.height)
    ensures TileBbox(g, l0, l, t).ymin == TileBbox(g, l0, l, Cell(t.x, t.y + 1)).ymax
  {
    var next := Cell(t.x, t.y + 1);
    RowEdges(g, l0, l, t, t.y * l.tileHeight, edge);
    RowEdges(g, l0, l, next, edge, MinInt((next.y + 1) * l.tileHeight, l.height));
  }

  /** The first boxes start at the origin. */
  lemma FirstEdges(g: Georef, l0: Level, l: Level, t: Cell)
    requires l.width > 0 && l.height > 0
    ensures t.x == 0 ==> TileBbox(g, l0, l, t).xmin == g.originX
    ensures t.y == 0 ==> TileBbox(g, l0, l, t).ymax == g.originY
  {
  }

  /** From a tile whose box starts left of x, the column of tiles that has x. */
  lemma {:induction false} ColumnOf(g: Georef, l0: Level, l: Level, t: Cell, x: real) returns (found: Cell)
    requires GridFits(l) && l.width > 0 && l.height > 0 && t.x < l.tilesX && t.y < l.tilesY
    requires TileBbox(g, l0, l, t).xmin <= x <= g.originX + l.width as real * LevelGeoref(g, l0, l).pixelX
    ensures found.x < l.tilesX && found.y == t.y
    ensures TileBbox(g, l0, l, found).xmin <= x <= TileBbox(g, l0, l, found).xmax
    decreases l.tilesX - t.x
  {
    ColumnsAbut(g, l0, l, t);
    if x <= TileBbox(g, l0, l, t).xmax {
      found := t;
    } else {
      found := ColumnOf(g, l0, l, Cell(t.x + 1, t.y), x);
    }
  }

  lemma {:induction false} RowWith(g: Georef, l0: Level, l: Level, t: Cell, y: real) returns (found: Cell)
    requires GridFits(l) && l.width > 0 && l.height > 0 && t.x < l.tilesX && t.y < l.tilesY
    requires TileBbox(g, l0, l, t).ymax >= y >= g.originY - l.height as real * LevelGeoref(g, l0, l).pixelY
    ensures found.y < l.tilesY && found.x == t.x
    ensures TileBbox(g, l0, l, found).ymin <= y <= TileBbox(g, l0, l, found).ymax
    decreases l.tilesY - t.y
  {
    RowsAbut(g, l0, l, t);
    if y >= TileBbox(g, l0, l, t).ymin {
      found := t;
    } else {
      found := RowWith(g, l0, l, Cell(t.x, t.y + 1), y);
    }
  }

  /** Every point of the level's extent is in the box of one of its tiles. */
  lemma BoxesCoverExtent(g: Georef, l0: Level, l: Level, p: Point) returns (t: Cell)
    requires GridFits(l) && l.width > 0 && l.height > 0
    requires g.originX <= p.x <= g.originX + l.width as real * LevelGeoref(g, l0, l).pixelX
    requires g.originY - l.height as real * LevelGeoref(g, l0, l).pixelY <= p.y <= g.originY
    ensures t.x < l.tilesX && t.y < l.tilesY && InBox(p, TileBbox(g, l0, l, t))
  {
    FirstEdges(g, l0, l, Cell(0, 0));
    var c := ColumnOf(g, l0, l, Cell(0, 0), p.x);
    var d := RowWith(g, l0, l, Cell(0, 0), p.y);
    t := Cell(c.x, d.y);
    SameColumnSameEdges(g, l0, l, c, t);
    SameColumnSameEdges(g, l0, l, d, t);
  }

  lemma SameColumnSameEdges(g: Georef, l0: Level, l: Level, c: Cell, t: Cell)
    requires l.width > 0 && l.height > 0
    ensures var (a, b) := (TileBbox(g, l0, l, c), TileBbox(g, l0, l, t));
            && (c.x == t.x ==> a.xmin == b.xmin && a.xmax == b.xmax)
            && (c.y == t.y ==> a.ymin == b.ymin && a.ymax == b.ymax)
  {
  }

  /** All levels have the extent of the base level. */
  lemma LevelsShareExtent(g: Georef, l0: Level, l: Level)
    requires l.width > 0 && l.height > 0
    ensures LevelGeoref(g, l0, l).originX == g.originX && LevelGeoref(g, l0, l).originY == g.originY
    ensures l.width as real * LevelGeoref(g, l0, l).pixelX == l0.width as real * g.pixelX
    ensures l.height as real * LevelGeoref(g, l0, l).pixelY == l0.height as real * g.pixelY
  {
    Cancelled(g.pixelX, l0.width as real, l.width as real);
    Cancelled(g.pixelY, l0.height as real, l.height as real);
  }

  lemma Cancelled(p: real, n0: real, n: real)
    requires n > 0.0
    ensures n * (p * (n0 / n)) == n0 * p
  {
    var r := n0 / n;
    assert r * n == n0;
    assert n * (p * r) == (r * n) * p;
  }

  /** Filtering keeps exactly the rows whose box meets b. */
  lemma {:induction false} MeetingMembers(rows: seq<TileRow>, b: Bbox, row: TileRow)
    ensures row in Meeting(rows, b) <==> row in rows && row.bbox.Some? && BboxIntersects(row.bbox.value, b)
  {
    if rows != [] {
      var front, last := rows[..|rows| - 1], rows[|rows| - 1];
      assert rows == front + [last];
      MeetingMembers(front, b, row);
    }
  }

  /** A pixel's centre is in the box of its pixels. */
  lemma CenterInPixelBox(s: Georef, x0: int, x1: int, y0: int, y1: int, c: Cell)
    requires Unflipped(s) && x0 <= c.x < x1 && y0 <= c.y < y1
    ensures InBox(Center(s, c.x, c.y), PixelBox(s, x0, x1, y0, y1))
  {
    MulOrder(x0 as real, c.x as real + 0.5, s.pixelX);
    MulOrder(c.x as real + 0.5, x1 as real, s.pixelX);
    MulOrder(y0 as real, c.y as real + 0.5, s.pixelY);
    MulOrder(c.y as real + 0.5, y1 as real, s.pixelY);
  }

  lemma PixelOnTile(c: nat, t: nat, size: nat, n: nat)
    requires size > 0 && c < n && c / size == t
    ensures t * size <= c < MinInt((t + 1) * size, n)
  {
    DivIsTile(c, t, size);
    assert (t + 1) * size == t * size + size;
  }

  /** A pixel's centre is in its tile's box. */
  lemma CenterInTileBox(g: Georef, l0: Level, l: Level, c: Cell)
    requires NorthUp(g) && l.tileWidth > 0 && l.tileHeight > 0 && InImage(l, c.x, c.y)
    ensures InBox(Center(LevelGeoref(g, l0, l), c.x, c.y), TileBbox(g, l0, l, TileOf(c, l.tileWidth, l.tileHeight)))
  {
    var t := TileOf(c, l.tileWidth, l.tileHeight);
    ScaledIsUnflipped(g, l0, l);
    PixelOnTile(c.x, t.x, l.tileWidth, l.width);
    PixelOnTile(c.y, t.y, l.tileHeight, l.height);
    CenterInPixelBox(LevelGeoref(g, l0, l), t.x * l.tileWidth, MinInt((t.x + 1) * l.tileWidth, l.width),
                     t.y * l.tileHeight, MinInt((t.y + 1) * l.tileHeight, l.height), c);
  }

  /** With positive pixel sizes only the pixels of a box have their centre in it. */
  lemma InPixelBox(s: Georef, x0: int, x1: int, y0: int, y1: int, c: Cell)
    requires NorthUp(s) && InBox(Center(s, c.x, c.y), PixelBox(s, x0, x1, y0, y1))
    ensures x0 <= c.x < x1 && y0 <= c.y < y1
  {
    BetweenEdges(s.originX, s.pixelX, x0 as real * s.pixelX, x1 as real * s.pixelX, c.x, x0, x1);
    BetweenEdges(-s.originY, s.pixelY, y0 as real * s.pixelY, y1 as real * s.pixelY, c.y, y0, y1);
  }

  lemma BetweenEdges(o: real, p: real, from: real, to: real, c: nat, x0: int, x1: int)
    requires p > 0.0 && from == x0 as real * p && to == x1 as real * p
    requires o + from <= o + (c as real + 0.5) * p <= o + to
    ensures x0 <= c < x1
  {
    Cancel(x0 as real, c as real + 0.5, p);
    Cancel(c as real + 0.5, x1 as real, p);
  }

  lemma TileOfPixel(c: nat, t: nat, size: nat, edge: int)
    requires size > 0 && t * size <= c < edge <= (t + 1) * size
    ensures c / size == t
  {
    assert (t + 1) * size == t * size + size;
    DivIsTile(c, t, size);
  }

  lemma InBoxOfTile(g: Georef, l0: Level, l: Level, c: Cell, t: Cell)
    requires l.width > 0 && l.height > 0 && NorthUp(LevelGeoref(g, l0, l)) && l.tileWidth > 0 && l.tileHeight > 0
    requires InBox(Center(LevelGeoref(g, l0, l), c.x, c.y), TileBbox(g, l0, l, t))
    ensures t == TileOf(c, l.tileWidth, l.tileHeight)
  {
    var s := LevelGeoref(g, l0, l);
    var right, bottom := MinInt((t.x + 1) * l.tileWidth, l.width), MinInt((t.y + 1) * l.tileHeight, l.height);
    InPixelBox(s, t.x * l.tileWidth, right, t.y * l.tileHeight, bottom, c);
    TileOfPixel(c.x, t.x, l.tileWidth, right);
    TileOfPixel(c.y, t.y, l.tileHeight, bottom);
  }

  /** Of all tile boxes exactly that of a pixel's own tile has the pixel's centre. */
  lemma BoxHasItsOwnCenters(g: Georef, l0: Level, l: Level, c: Cell, t: Cell)
    requires NorthUp(g) && l0.width > 0 && l0.height > 0 && l.tileWidth > 0 && l.tileHeight > 0 && InImage(l, c.x, c.y)
    ensures InBox(Center(LevelGeoref(g, l0, l), c.x, c.y), TileBbox(g, l0, l, t)) <==>
              t == TileOf(c, l.tileWidth, l.tileHeight)
  {
    ScaledIsNorthUp(g, l0, l);
    CenterInTileBox(g, l0, l, c);
    if InBox(Center(LevelGeoref(g, l0, l), c.x, c.y), TileBbox(g, l0, l, t)) {
      InBoxOfTile(g, l0, l, c, t);
    }
  }

  // ---- pruning ------------------------------------------------------------------------------

  lemma PixelTileInGrid(c: nat, size: nat, n: nat, count: nat)
    requires size > 0 && c < n <= count * size
    ensures c / size < count
  {
    assert c == c / size * size + c % size;
    MulMono(count, c / size, size);
  }

  /** Boxes meet iff they share a point. */
  lemma MeetingBoxesShareAPoint(a: Bbox, b: Bbox)
    requires ValidBox(a) && ValidBox(b)
    ensures BboxIntersects(a, b) <==> exists p :: InBox(p, a) && InBox(p, b)
  {
    if BboxIntersects(a, b) {
      var p := Point(Max(a.xmin, b.xmin), Max(a.ymin, b.ymin));
      assert InBox(p, a) && InBox(p, b);
    }
  }

  lemma PixelBoxIsValid(s: Georef, x0: int, x1: int, y0: int, y1: int)
    requires Unflipped(s) && x0 <= x1 && y0 <= y1
    ensures ValidBox(PixelBox(s, x0, x1, y0, y1))
  {
    MulOrder(x0 as real, x1 as real, s.pixelX);
    MulOrder(y0 as real, y1 as real, s.pixelY);
  }

  lemma TileIsNotEmpty(n: nat, size: nat, count: nat, i: nat)
    requires count > 0 && (count - 1) * size < n && i < count
    ensures i * size <= MinInt((i + 1) * size, n)
  {
    MulMono(i, count - 1, size);
    assert (i + 1) * size == i * size + size;
  }

  lemma TileBoxIsValid(g: Georef, l0: Level, l: Level, t: Cell)
    requires NorthUp(g) && GridFits(l) && l.width > 0 && l.height > 0 && t.x < l.tilesX && t.y < l.tilesY
    ensures ValidBox(TileBbox(g, l0, l, t))
  {
    ScaledIsUnflipped(g, l0, l);
    TileIsNotEmpty(l.width, l.tileWidth, l.tilesX, t.x);
    TileIsNotEmpty(l.height, l.tileHeight, l.tilesY, t.y);
    PixelBoxIsValid(LevelGeoref(g, l0, l), t.x * l.tileWidth, MinInt((t.x + 1) * l.tileWidth, l.width),
                    t.y * l.tileHeight, MinInt((t.y + 1) * l.tileHeight, l.height));
  }

  /** Pruning, exactly: a tile is listed iff its box and the filter share a point. */
  lemma ListedIffPointShared<V>(cog: Cog<V>, box: Boxes, level: nat, b: Bbox, t: Cell)
    requires WellFormed(cog) && Located(cog, level) && Gridded(cog.levels) && TrueBoxes(cog, box) && ValidBox(b)
    requires GridFits(cog.levels[level]) && cog.levels[level].width > 0 && cog.levels[level].height > 0
    requires t.x < cog.levels[level].tilesX && t.y < cog.levels[level].tilesY
    ensures EnumerateTilesFiltered(cog, box, Some(b)).Ok?
    ensures RowOf(cog, box, level, t) in EnumerateTilesFiltered(cog, box, Some(b)).value <==>
              exists p :: InBox(p, TileBbox(cog.georef.value, cog.levels[0], cog.levels[level], t)) && InBox(p, b)
  {
    var own := TileBbox(cog.georef.value, cog.levels[0], cog.levels[level], t);
    TileBoxIsValid(cog.georef.value, cog.levels[0], cog.levels[level], t);
    MeetingBoxesShareAPoint(own, b);
    RowListed(cog, box, |cog.levels|, level, t);
    MeetingMembers(EnumerateTiles(cog, box), b, RowOf(cog, box, level, t));
  }

  /** The checks in their order: no filter is the whole listing, a reversed filter is invalid, and one for a file
      without georeference has nothing to go by. Otherwise rows are only left out, in their order. */
  lemma PruningOnlyLeavesOut<V>(cog: Cog<V>, box: Boxes, filter: Option<Bbox>)
    requires Gridded(cog.levels)
    ensures var r := EnumerateTilesFiltered(cog, box, filter);
            && (filter.None? ==> r == Ok(EnumerateTiles(cog, box)))
            && (filter.Some? && (filter.value.xmin > filter.value.xmax || filter.value.ymin > filter.value.ymax) ==>
                  r == Err(InvalidFilter))
            && (filter.Some? && ValidBox(filter.value) && cog.georef.None? ==> r == Err(FilterWithoutGeoref))
            && (filter.Some? && ValidBox(filter.value) && cog.georef.Some? ==> r.Ok?)
            && (r.Ok? ==> forall p, q :: 0 <= p < q < |r.value| ==> ListedBefore(r.value[p], r.value[q]))
            && (r.Ok? ==> forall row :: row in r.value ==> row in EnumerateTiles(cog, box))
  {
    var rows := EnumerateTiles(cog, box);
    EachTileOnce(cog, box);
    if filter.Some? {
      MeetingInOrder(rows, filter.value);
      forall row ensures row in Meeting(rows, filter.value) ==> row in rows {
        MeetingMembers(rows, filter.value, row);
      }
    }
  }

  lemma {:induction false} MeetingInOrder(rows: seq<TileRow>, b: Bbox)
    requires forall p, q :: 0 <= p < q < |rows| ==> ListedBefore(rows[p], rows[q])
    ensures forall p, q :: 0 <= p < q < |Meeting(rows, b)| ==> ListedBefore(Meeting(rows, b)[p], Meeting(rows, b)[q])
  {
    if rows != [] {
      var front, last := rows[..|rows| - 1], rows[|rows| - 1];
      MeetingInOrder(front, b);
      forall p | 0 <= p < |Meeting(front, b)| ensures ListedBefore(Meeting(front, b)[p], last) {
        MeetingMembers(front, b, Meeting(front, b)[p]);
        var i :| 0 <= i < |front| && front[i] == Meeting(front, b)[p];
        assert rows[i] == front[i];
      }
    }
  }

  /** Pruning the listing by a box keeps every tile that statistics of the same box would fetch. */
  lemma PruningKeepsWindowTiles<V>(cog: Cog<V>, box: Boxes, level: nat, b: Bbox, t: Cell)
    requires WellFormed(cog) && Located(cog, level) && Gridded(cog.levels) && TrueBoxes(cog, box) && ValidBox(b)
    requires GridFits(cog.levels[level])
    requires LevelWindow(cog, level, b).Some?
    requires t in WindowTiles(LevelWindow(cog, level, b).value, cog.levels[level].tileWidth,
                              cog.levels[level].tileHeight)
    ensures t.x < cog.levels[level].tilesX && t.y < cog.levels[level].tilesY
    ensures EnumerateTilesFiltered(cog, box, Some(b)).Ok?
    ensures RowOf(cog, box, level, t) in EnumerateTilesFiltered(cog, box, Some(b)).value
  {
    var l, w, g := cog.levels[level], LevelWindow(cog, level, b).value, cog.georef.value;
    WindowHolds(cog, level, b, Cell(0, 0));
    var c := WindowTilePixel(w, l.tileWidth, l.tileHeight, t);
    WindowHolds(cog, level, b, c);
    PixelTileInGrid(c.x, l.tileWidth, l.width, l.tilesX);
    PixelTileInGrid(c.y, l.tileHeight, l.height, l.tilesY);
    CenterInTileBox(g, cog.levels[0], l, c);
    assert BboxIntersects(TileBbox(g, cog.levels[0], l, t), b);
    RowListed(cog, box, |cog.levels|, level, t);
    MeetingMembers(EnumerateTiles(cog, box), b, RowOf(cog, box, level, t));
  }
}
