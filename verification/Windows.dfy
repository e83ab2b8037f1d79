/** Georeference, levels, and the pixel window of a box. Coordinates are reals. */
module Windows {
  import opened Wrappers
  import opened Zone

  datatype Georef = Georef(originX: real, originY: real, pixelX: real, pixelY: real)

  datatype Level = Level(level: nat, width: nat, height: nat, tileWidth: nat, tileHeight: nat, tilesX: nat, tilesY: nat)

  /** Inclusive pixel ranges. */
  datatype Window = Window(colMin: nat, colMax: nat, rowMin: nat, rowMax: nat)

  /** Pixel sizes are positive: north-up, y subtracted going down. */
  predicate NorthUp(g: Georef) {
    g.pixelX > 0.0 && g.pixelY > 0.0
  }

  /** Pixel sizes are not negative; those derived from a base level without pixels are 0. */
  predicate Unflipped(g: Georef) {
    g.pixelX >= 0.0 && g.pixelY >= 0.0
  }

  predicate InImage(l: Level, col: int, row: int) {
    0 <= col < l.width && 0 <= row < l.height
  }

  predicate InWindow(w: Window, col: int, row: int) {
    w.colMin <= col <= w.colMax && w.rowMin <= row <= w.rowMax
  }

  /** Pixel centre in world coordinates. */
  function Center(g: Georef, col: int, row: int): Point {
    Point(g.originX + (col as real + 0.5) * g.pixelX, g.originY - (row as real + 0.5) * g.pixelY)
  }

  function Ceil(r: real): int {
    -((-r).Floor)
  }

  function MaxInt(a: int, b: int): int {
    if a >= b then a else b
  }

  function MinInt(a: int, b: int): int {
    if a <= b then a else b
  }

  /** First and last index, clamped to the image, whose centre can lie in the box. With pixel size 0 the quotient is
      an infinity, or no number where the clamp decides; all centres are at the origin then, and the range is the
      whole side of the image or nothing. */
  function ColMin(g: Georef, l: Level, b: Bbox): int {
    if g.pixelX == 0.0 then if b.xmin <= g.originX then 0 else l.width
    else MaxInt(Ceil((b.xmin - g.originX) / g.pixelX - 0.5), 0)
  }

  function ColMax(g: Georef, l: Level, b: Bbox): int {
    if g.pixelX == 0.0 then if g.originX <= b.xmax then l.width - 1 else -1
    else MinInt(((b.xmax - g.originX) / g.pixelX - 0.5).Floor, l.width - 1)
  }

  function RowMin(g: Georef, l: Level, b: Bbox): int {
    if g.pixelY == 0.0 then if g.originY <= b.ymax then 0 else l.height
    else MaxInt(Ceil((g.originY - b.ymax) / g.pixelY - 0.5), 0)
  }

  function RowMax(g: Georef, l: Level, b: Bbox): int {
    if g.pixelY == 0.0 then if b.ymin <= g.originY then l.height - 1 else -1
    else MinInt(((g.originY - b.ymin) / g.pixelY - 0.5).Floor, l.height - 1)
  }

  /** The window of pixels whose centre lies in the closed box, None when there is none. */
  function CenterWindow(g: Georef, l: Level, b: Bbox): Option<Window> {
    if ColMin(g, l, b) > ColMax(g, l, b) || RowMin(g, l, b) > RowMax(g, l, b) then None
    else Some(Window(ColMin(g, l, b), ColMax(g, l, b), RowMin(g, l, b), RowMax(g, l, b)))
  }

  /** Level georeference: shared origin, pixel size scaled by the size ratio. */
  function LevelGeoref(g0: Georef, l0: Level, l: Level): Georef
    requires l.width > 0 && l.height > 0
  {
    Georef(g0.originX, g0.originY,
           g0.pixelX * (l0.width as real / l.width as real), g0.pixelY * (l0.height as real / l.height as real))
  }

  /** 1-based pixel (column, row) containing a world point: the floor grid. */
  function WorldToRaster(g: Georef, p: Point): (int, int)
    requires NorthUp(g)
  {
    (((p.x - g.originX) / g.pixelX).Floor + 1, ((g.originY - p.y) / g.pixelY).Floor + 1)
  }

  /** World coordinates of the upper left corner of 1-based pixel (col, row). */
  function RasterToWorld(g: Georef, col: int, row: int): Point {
    Point(g.originX + (col - 1) as real * g.pixelX, g.originY - (row - 1) as real * g.pixelY)
  }

  // ---- exactness ----------------------------------------------------------------------------

  /** Comparing d with the n-th centre is comparing d / p - 1/2 with n. */
  lemma CenterOrder(d: real, p: real, n: int)
    requires p > 0.0
    ensures d / p - 0.5 <= n as real <==> d <= (n as real + 0.5) * p
    ensures n as real <= d / p - 0.5 <==> (n as real + 0.5) * p <= d
  {
    var q, c := d / p, n as real + 0.5;
    assert q * p == d;
    assert q <= c ==> (c - q) * p >= 0.0;
    assert q >= c ==> (q - c) * p >= 0.0;
    assert q > c ==> (q - c) * p > 0.0;
    assert q < c ==> (c - q) * p > 0.0;
    assert (c - q) * p == c * p - d;
  }

  lemma CeilAtMost(r: real, n: int)
    ensures Ceil(r) <= n <==> r <= n as real
  {
  }

  lemma ColumnInRange(g: Georef, l: Level, b: Bbox, col: int)
    requires Unflipped(g)
    ensures ColMin(g, l, b) <= col <= ColMax(g, l, b) <==>
              0 <= col < l.width && b.xmin <= g.originX + (col as real + 0.5) * g.pixelX <= b.xmax
  {
    if g.pixelX > 0.0 {
      CenterOrder(b.xmin - g.originX, g.pixelX, col);
      CenterOrder(b.xmax - g.originX, g.pixelX, col);
      CeilAtMost((b.xmin - g.originX) / g.pixelX - 0.5, col);
    }
  }

  lemma RowInRange(g: Georef, l: Level, b: Bbox, row: int)
    requires Unflipped(g)
    ensures RowMin(g, l, b) <= row <= RowMax(g, l, b) <==>
              0 <= row < l.height && b.ymin <= g.originY - (row as real + 0.5) * g.pixelY <= b.ymax
  {
    if g.pixelY > 0.0 {
      CenterOrder(g.originY - b.ymax, g.pixelY, row);
      CenterOrder(g.originY - b.ymin, g.pixelY, row);
      CeilAtMost((g.originY - b.ymax) / g.pixelY - 0.5, row);
    }
  }

  /** The window holds exactly the pixels of the image whose centre is in the box. */
  lemma CenterWindowExact(g: Georef, l: Level, b: Bbox, col: int, row: int)
    requires Unflipped(g)
    ensures (CenterWindow(g, l, b).Some? && InWindow(CenterWindow(g, l, b).value, col, row)) <==>
              InImage(l, col, row) && InBox(Center(g, col, row), b)
  {
    var p := Center(g, col, row);
    ColumnRangeExact(g, l, b, col, p.x);
    RowRangeExact(g, l, b, row, p.y);
    RangesMakeWindow(CenterWindow(g, l, b), ColMin(g, l, b), ColMax(g, l, b), RowMin(g, l, b), RowMax(g, l, b),
                     l, b, col, row, p);
  }

  lemma ColumnRangeExact(g: Georef, l: Level, b: Bbox, col: int, x: real)
    requires Unflipped(g) && x == g.originX + (col as real + 0.5) * g.pixelX
    ensures ColMin(g, l, b) <= col <= ColMax(g, l, b) <==> 0 <= col < l.width && b.xmin <= x <= b.xmax
    ensures ColMin(g, l, b) >= 0
  {
    ColumnInRange(g, l, b, col);
  }

  lemma RowRangeExact(g: Georef, l: Level, b: Bbox, row: int, y: real)
    requires Unflipped(g) && y == g.originY - (row as real + 0.5) * g.pixelY
    ensures RowMin(g, l, b) <= row <= RowMax(g, l, b) <==> 0 <= row < l.height && b.ymin <= y <= b.ymax
    ensures RowMin(g, l, b) >= 0
  {
    RowInRange(g, l, b, row);
  }

  /** A window made of two exact ranges is exact. */
  lemma RangesMakeWindow(w: Option<Window>, colMin: int, colMax: int, rowMin: int, rowMax: int, l: Level, b: Bbox,
                         col: int, row: int, p: Point)
    requires colMin >= 0 && rowMin >= 0
    requires w == if colMin > colMax || rowMin > rowMax then None else Some(Window(colMin, colMax, rowMin, rowMax))
    requires colMin <= col <= colMax <==> 0 <= col < l.width && b.xmin <= p.x <= b.xmax
    requires rowMin <= row <= rowMax <==> 0 <= row < l.height && b.ymin <= p.y <= b.ymax
    ensures (w.Some? && InWindow(w.value, col, row)) <==> InImage(l, col, row) && InBox(p, b)
  {
  }

  /** Interior points of a pixel come back to it: corner in, right and lower edge out. */
  lemma RasterWorldRoundTrip(g: Georef, col: int, row: int, fx: real, fy: real)
    requires NorthUp(g) && 0.0 <= fx < 1.0 && 0.0 <= fy < 1.0
    ensures var c := RasterToWorld(g, col, row);
            WorldToRaster(g, Point(c.x + fx * g.pixelX, c.y - fy * g.pixelY)) == (col, row)
  {
    var c := RasterToWorld(g, col, row);
    OffsetFloor(g.pixelX, col - 1, fx, c.x + fx * g.pixelX - g.originX);
    OffsetFloor(g.pixelY, row - 1, fy, g.originY - (c.y - fy * g.pixelY));
  }

  lemma OffsetFloor(p: real, n: int, f: real, d: real)
    requires p > 0.0 && 0.0 <= f < 1.0 && d == n as real * p + f * p
    ensures (d / p).Floor == n
  {
    assert d == (n as real + f) * p;
    assert d / p == n as real + f;
  }

  lemma QuotientOrder(d: real, p: real, n: real)
    requires p > 0.0
    ensures n <= d / p <==> n * p <= d
  {
    var q := d / p;
    assert q * p == d;
    assert q >= n ==> (q - n) * p >= 0.0;
    assert q < n ==> (n - q) * p > 0.0;
  }

  lemma FloorBetween(d: real, p: real, n: int)
    requires p > 0.0
    ensures (d / p).Floor == n <==> n as real * p <= d < (n + 1) as real * p
  {
    QuotientOrder(d, p, n as real);
    QuotientOrder(d, p, (n + 1) as real);
  }

  /** 1-based pixel (col, row) has p: left and upper edge in, right and lower edge out. */
  predicate PixelHas(g: Georef, col: int, row: int, p: Point) {
    && g.originX + (col - 1) as real * g.pixelX <= p.x < g.originX + col as real * g.pixelX
    && g.originY - row as real * g.pixelY < p.y <= g.originY - (row - 1) as real * g.pixelY
  }

  /** The pixel found under a point is the one that has it. */
  lemma RasterPixelHasPoint(g: Georef, p: Point, col: int, row: int)
    requires NorthUp(g)
    ensures WorldToRaster(g, p) == (col, row) <==> PixelHas(g, col, row, p)
  {
    FloorBetween(p.x - g.originX, g.pixelX, col - 1);
    FloorBetween(g.originY - p.y, g.pixelY, row - 1);
  }

  lemma CenterToRaster(g: Georef, col: int, row: int)
    requires NorthUp(g)
    ensures WorldToRaster(g, Center(g, col, row)) == (col + 1, row + 1)
  {
    var p, c := Center(g, col, row), RasterToWorld(g, col + 1, row + 1);
    assert p == Point(c.x + 0.5 * g.pixelX, c.y - 0.5 * g.pixelY);
    RasterWorldRoundTrip(g, col + 1, row + 1, 0.5, 0.5);
  }
}
