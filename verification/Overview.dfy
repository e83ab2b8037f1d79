/** Overview levels: choosing one by pixel budget, and how far its pixel counts are from the base level's. */
module Overview {
  import opened Wrappers
  import opened Zone
  import opened Windows
  import opened Grids
  import opened Raster
  import opened Zonal

  // ---- choosing a level ---------------------------------------------------------------------

  /** Pixels of a box's window on a level; none when the box misses it. */
  function Area<V>(cog: Cog<V>, b: Bbox, level: nat): int
    requires WellFormed(cog) && Located(cog, level)
  {
    var w := LevelWindow(cog, level, b);
    if w.None? then 0 else (w.value.colMax - w.value.colMin + 1) * (w.value.rowMax - w.value.rowMin + 1)
  }

  /** The first level that fits the budget, else the last. */
  ghost predicate FirstFit<V>(cog: Cog<V>, b: Bbox, maxPixels: nat, level: nat)
    requires WellFormed(cog) && cog.georef.Some?
  {
    && level < |cog.levels|
    && (Area(cog, b, level) <= maxPixels || level == |cog.levels| - 1)
    && (forall i :: 0 <= i < level ==> Area(cog, b, i) > maxPixels)
  }

  /** Level 0 when the budget is 0, there is no choice, or there is no georeference. */
  ghost predicate Selected<V>(cog: Cog<V>, b: Bbox, maxPixels: nat, level: nat)
    requires WellFormed(cog)
  {
    if maxPixels == 0 || |cog.levels| <= 1 || cog.georef.None? then level == 0 else FirstFit(cog, b, maxPixels, level)
  }

  method SelectLevel<V>(cog: Cog<V>, b: Bbox, maxPixels: nat) returns (level: nat)
    requires WellFormed(cog)
    ensures Selected(cog, b, maxPixels, level)
    ensures maxPixels == 0 || |cog.levels| <= 1 || cog.georef.None? ==> level == 0
    ensures maxPixels > 0 && |cog.levels| > 1 && cog.georef.Some? ==>
              && level < |cog.levels| && (forall i :: 0 <= i < level ==> Area(cog, b, i) > maxPixels)
              && (level + 1 < |cog.levels| ==> Area(cog, b, level) <= maxPixels)
  {
    if maxPixels == 0 || |cog.levels| <= 1 || cog.georef.None? {
      return 0;
    }
    for i := 0 to |cog.levels|
      invariant forall j :: 0 <= j < i ==> Area(cog, b, j) > maxPixels
    {
      if Area(cog, b, i) <= maxPixels {
        return i;
      }
    }
    level := |cog.levels| - 1;
  }

  /** A larger budget never selects a coarser level, and equal budgets select the same one. */
  lemma SelectionIsAntitone<V>(cog: Cog<V>, b: Bbox, small: nat, large: nat, coarse: nat, fine: nat)
    requires WellFormed(cog)
    requires 0 < small <= large && Selected(cog, b, small, coarse) && Selected(cog, b, large, fine)
    ensures fine <= coarse
    ensures small == large ==> fine == coarse
  {
  }

  // ---- counts -------------------------------------------------------------------------------

  /** Base-level pixels per pixel of a level, on each axis; level_scale is their product. */
  function WidthRatio(l0: Level, l: Level): real
    requires l.width > 0
  {
    l0.width as real / l.width as real
  }

  function HeightRatio(l0: Level, l: Level): real
    requires l.height > 0
  {
    l0.height as real / l.height as real
  }

  /** The box is within the extent of the level, in x and in y. */
  predicate ColumnsFit(g: Georef, l: Level, b: Bbox) {
    g.originX <= b.xmin <= b.xmax <= g.originX + l.width as real * g.pixelX
  }

  predicate RowsFit(g: Georef, l: Level, b: Bbox) {
    g.originY - l.height as real * g.pixelY <= b.ymin <= b.ymax <= g.originY
  }

  predicate ColumnInBox(g: Georef, b: Bbox, col: int) {
    b.xmin <= g.originX + (col as real + 0.5) * g.pixelX <= b.xmax
  }

  predicate RowInBox(g: Georef, b: Bbox, row: int) {
    b.ymin <= g.originY - (row as real + 0.5) * g.pixelY <= b.ymax
  }

  /** How many columns of a level have their centre in the box, and how many rows. */
  function Columns(g: Georef, l: Level, b: Bbox): nat {
    |set col | 0 <= col < l.width && ColumnInBox(g, b, col)|
  }

  function Rows(g: Georef, l: Level, b: Bbox): nat {
    |set row | 0 <= row < l.height && RowInBox(g, b, row)|
  }

  lemma {:induction false} RangeSize(lo: int, hi: int, s: set<int>)
    requires forall i :: i in s <==> lo <= i <= hi
    ensures |s| == if lo <= hi then hi - lo + 1 else 0
    decreases hi - lo
  {
    if lo <= hi {
      RangeSize(lo, hi - 1, s - {hi});
    } else {
      assert forall i :: i !in s;
    }
  }

  lemma ColumnsCounted(g: Georef, l: Level, b: Bbox)
    requires Unflipped(g)
    ensures Columns(g, l, b) == if ColMin(g, l, b) <= ColMax(g, l, b) then ColMax(g, l, b) - ColMin(g, l, b) + 1 else 0
  {
    var s := set col | 0 <= col < l.width && ColumnInBox(g, b, col);
    forall col ensures col in s <==> ColMin(g, l, b) <= col <= ColMax(g, l, b) {
      ColumnInRange(g, l, b, col);
    }
    RangeSize(ColMin(g, l, b), ColMax(g, l, b), s);
  }

  lemma RowsCounted(g: Georef, l: Level, b: Bbox)
    requires Unflipped(g)
    ensures Rows(g, l, b) == if RowMin(g, l, b) <= RowMax(g, l, b) then RowMax(g, l, b) - RowMin(g, l, b) + 1 else 0
  {
    var s := set row | 0 <= row < l.height && RowInBox(g, b, row);
    forall row ensures row in s <==> RowMin(g, l, b) <= row <= RowMax(g, l, b) {
      RowInRange(g, l, b, row);
    }
    RangeSize(RowMin(g, l, b), RowMax(g, l, b), s);
  }

  /** The area select_level compares with the budget is columns by rows. */
  lemma AreaIsColumnsByRows<V>(cog: Cog<V>, b: Bbox, level: nat)
    requires WellFormed(cog) && Located(cog, level) && cog.levels[level].width > 0
    requires cog.levels[level].height > 0
    ensures var (g, l) := (LevelGeoref(cog.georef.value, cog.levels[0], cog.levels[level]), cog.levels[level]);
            Area(cog, b, level) == Columns(g, l, b) * Rows(g, l, b)
  {
    var g := LevelGeoref(cog.georef.value, cog.levels[0], cog.levels[level]);
    ScaledIsUnflipped(cog.georef.value, cog.levels[0], cog.levels[level]);
    ColumnsCounted(g, cog.levels[level], b);
    RowsCounted(g, cog.levels[level], b);
  }

  /** How many of the n pixel centres 0.5, 1.5, ... lie in [from, to]. */
  function CentersBetween(from: real, to: real, n: nat): int {
    MinInt((to - 0.5).Floor, n - 1) - MaxInt(Ceil(from - 0.5), 0) + 1
  }

  /** A stretch holds as many centres as it is long, give or take one. */
  lemma CentersInStretch(from: real, to: real, n: nat)
    requires 0.0 <= from <= to <= n as real
    ensures CentersBetween(from, to, n) >= 0
    ensures -1.0 <= CentersBetween(from, to, n) as real - (to - from) <= 1.0
  {
  }

  lemma WithinExtent(d: real, p: real, n: nat)
    requires p > 0.0 && 0.0 <= d <= n as real * p
    ensures 0.0 <= d / p <= n as real
  {
    var q := d / p;
    assert q * p == d;
    assert q > n as real ==> (q - n as real) * p > 0.0;
    assert q < 0.0 ==> q * p < 0.0;
  }

  lemma MulNonNegative(a: real, b: real)
    requires a >= 0.0 && b >= 0.0
    ensures a * b >= 0.0
  {
  }

  lemma CloseAfterScaling(n: real, n0: real, u: real, r: real)
    requires r > 0.0 && -1.0 <= n - u <= 1.0 && -1.0 <= n0 - u * r <= 1.0
    ensures -(r + 1.0) <= n * r - n0 <= r + 1.0
  {
    MulNonNegative(1.0 - (n - u), r);
    MulNonNegative(1.0 + (n - u), r);
    assert n * r == u * r + (n - u) * r;
  }

  /** Columns of a level against the length u, in pixels, of the box's side. */
  lemma ColumnsNear(g: Georef, l: Level, b: Bbox, u: real)
    requires NorthUp(g) && ColumnsFit(g, l, b)
    requires u * g.pixelX == b.xmax - b.xmin
    ensures -1.0 <= Columns(g, l, b) as real - u <= 1.0
  {
    var from, to := (b.xmin - g.originX) / g.pixelX, (b.xmax - g.originX) / g.pixelX;
    WithinExtent(b.xmin - g.originX, g.pixelX, l.width);
    WithinExtent(b.xmax - g.originX, g.pixelX, l.width);
    ColumnsCounted(g, l, b);
    Stretch(b.xmin - g.originX, b.xmax - g.originX, g.pixelX, u);
    CentersInStretch(from, to, l.width);
  }

  lemma RowsNear(g: Georef, l: Level, b: Bbox, u: real)
    requires NorthUp(g) && RowsFit(g, l, b)
    requires u * g.pixelY == b.ymax - b.ymin
    ensures -1.0 <= Rows(g, l, b) as real - u <= 1.0
  {
    var from, to := (g.originY - b.ymax) / g.pixelY, (g.originY - b.ymin) / g.pixelY;
    WithinExtent(g.originY - b.ymax, g.pixelY, l.height);
    WithinExtent(g.originY - b.ymin, g.pixelY, l.height);
    RowsCounted(g, l, b);
    Stretch(g.originY - b.ymax, g.originY - b.ymin, g.pixelY, u);
    CentersInStretch(from, to, l.height);
  }

  lemma Stretch(a: real, b: real, p: real, u: real)
    requires p > 0.0 && a <= b && u * p == b - a
    ensures b / p - a / p == u && a / p <= b / p
  {
    var x, y := a / p, b / p;
    assert x * p == a && y * p == b;
    assert (y - x - u) * p == 0.0;
    assert x > y ==> (x - y) * p > 0.0;
  }

  /** Scaling facts of one axis: lengths agree, and a side of u large pixels is one of u * r small ones. */
  lemma AxisFacts(p: real, q: real, r: real, n0: nat, n: nat, d: real, u: real)
    requires p > 0.0 && n0 > 0 && n > 0 && r == n0 as real / n as real && q == p * r && u == d / q
    ensures r > 0.0 && q > 0.0 && n as real * q == n0 as real * p
    ensures u * q == d && u * r * p == d
  {
    assert r * n as real == n0 as real;
    assert n as real * q == (r * n as real) * p;
    assert u * q == d;
    assert u * r * p == u * (p * r);
  }

  /** The box's side in pixels of g is u, in pixels of the base level u times the ratio; the box fits both. */
  lemma SameSide(g0: Georef, l0: Level, g: Georef, l: Level, b: Bbox) returns (u: real)
    requires NorthUp(g0) && l0.width > 0 && l0.height > 0 && l.width > 0 && l.height > 0
    requires g == LevelGeoref(g0, l0, l) && ColumnsFit(g0, l0, b)
    ensures g.pixelX > 0.0 && u * g.pixelX == b.xmax - b.xmin && ColumnsFit(g, l, b)
    ensures (u * WidthRatio(l0, l)) * g0.pixelX == b.xmax - b.xmin && WidthRatio(l0, l) > 0.0
  {
    ScaledPositive(g0.pixelX, l0.width, l.width);
    u := (b.xmax - b.xmin) / g.pixelX;
    AxisFacts(g0.pixelX, g.pixelX, WidthRatio(l0, l), l0.width, l.width, b.xmax - b.xmin, u);
  }

  lemma SameHeight(g0: Georef, l0: Level, g: Georef, l: Level, b: Bbox) returns (u: real)
    requires NorthUp(g0) && l0.width > 0 && l0.height > 0 && l.width > 0 && l.height > 0
    requires g == LevelGeoref(g0, l0, l) && RowsFit(g0, l0, b)
    ensures g.pixelY > 0.0 && u * g.pixelY == b.ymax - b.ymin && RowsFit(g, l, b)
    ensures (u * HeightRatio(l0, l)) * g0.pixelY == b.ymax - b.ymin && HeightRatio(l0, l) > 0.0
  {
    ScaledPositive(g0.pixelY, l0.height, l.height);
    u := (b.ymax - b.ymin) / g.pixelY;
    AxisFacts(g0.pixelY, g.pixelY, HeightRatio(l0, l), l0.height, l.height, b.ymax - b.ymin, u);
  }

  lemma BothNear(g0: Georef, l0: Level, g: Georef, l: Level, b: Bbox, r: real) returns (u: real)
    requires NorthUp(g0) && l0.width > 0 && l0.height > 0 && l.width > 0 && l.height > 0
    requires g == LevelGeoref(g0, l0, l) && ColumnsFit(g0, l0, b)
    requires r == WidthRatio(l0, l)
    ensures r > 0.0 && -1.0 <= Columns(g, l, b) as real - u <= 1.0 && -1.0 <= Columns(g0, l0, b) as real - u * r <= 1.0
  {
    ScaledIsNorthUp(g0, l0, l);
    u := SameSide(g0, l0, g, l, b);
    ColumnsNear(g, l, b, u);
    ColumnsNear(g0, l0, b, u * r);
  }

  lemma BothRowsNear(g0: Georef, l0: Level, g: Georef, l: Level, b: Bbox, r: real) returns (u: real)
    requires NorthUp(g0) && l0.width > 0 && l0.height > 0 && l.width > 0 && l.height > 0
    requires g == LevelGeoref(g0, l0, l) && RowsFit(g0, l0, b)
    requires r == HeightRatio(l0, l)
    ensures r > 0.0 && -1.0 <= Rows(g, l, b) as real - u <= 1.0 && -1.0 <= Rows(g0, l0, b) as real - u * r <= 1.0
  {
    ScaledIsNorthUp(g0, l0, l);
    u := SameHeight(g0, l0, g, l, b);
    RowsNear(g, l, b, u);
    RowsNear(g0, l0, b, u * r);
  }

  predicate Near(x: real, y: real, error: real) {
    -error <= x - y <= error
  }

  /** For a box in the extent and g the georeference of an overview: its columns, scaled by the ratio r of the widths,
      are within r + 1 of the base level's. */
  lemma OverviewColumns(g0: Georef, l0: Level, g: Georef, l: Level, b: Bbox, r: real)
    requires NorthUp(g0) && l0.width > 0 && l0.height > 0 && l.width > 0 && l.height > 0
    requires g == LevelGeoref(g0, l0, l) && ColumnsFit(g0, l0, b) && r == WidthRatio(l0, l)
    ensures Near(Columns(g, l, b) as real * r, Columns(g0, l0, b) as real, r + 1.0)
  {
    var u := BothNear(g0, l0, g, l, b, r);
    CloseAfterScaling(Columns(g, l, b) as real, Columns(g0, l0, b) as real, u, r);
  }

  /** Rows likewise, with the ratio of the heights. */
  lemma OverviewRows(g0: Georef, l0: Level, g: Georef, l: Level, b: Bbox, r: real)
    requires NorthUp(g0) && l0.width > 0 && l0.height > 0 && l.width > 0 && l.height > 0
    requires g == LevelGeoref(g0, l0, l) && RowsFit(g0, l0, b) && r == HeightRatio(l0, l)
    ensures Near(Rows(g, l, b) as real * r, Rows(g0, l0, b) as real, r + 1.0)
  {
    var u := BothRowsNear(g0, l0, g, l, b, r);
    CloseAfterScaling(Rows(g, l, b) as real, Rows(g0, l0, b) as real, u, r);
  }

  lemma ProductWithin(e: real, g: real, a: real, h: real)
    requires -a <= e <= a && -h <= g <= h
    ensures -(a * h) <= e * g <= a * h
  {
    MulNonNegative(a - e, h + g);
    MulNonNegative(a + e, h - g);
    MulNonNegative(a - e, h - g);
    MulNonNegative(a + e, h + g);
  }

  lemma ProductClose(c0: real, d0: real, c: real, d: real, a: real, b: real)
    requires c0 >= 0.0 && d0 >= 0.0 && -a <= c - c0 <= a && -b <= d - d0 <= b
    ensures -(c0 * b + a * (d0 + b)) <= c * d - c0 * d0 <= c0 * b + a * (d0 + b)
  {
    ProductWithin(c0, d - d0, c0, b);
    ProductWithin(c - c0, d, a, d0 + b);
    assert c * d - c0 * d0 == c0 * (d - d0) + (c - c0) * d;
  }

  lemma Regroup(c: real, d: real, r: real, t: real)
    ensures (c * d) * (r * t) == (c * r) * (d * t)
  {
    assert (c * d) * (r * t) == c * (d * (r * t));
    assert d * (r * t) == r * (d * t);
    assert c * (r * (d * t)) == (c * r) * (d * t);
  }

  lemma CastProduct(a: int, b: int)
    ensures (a * b) as real == a as real * b as real
  {
  }

  /** How far the product of two counts can be off when each is off by at most its ratio and one. */
  function AreaError(columns: nat, rows: nat, r: real, t: real): real {
    columns as real * (t + 1.0) + (r + 1.0) * (rows as real + (t + 1.0))
  }

  /** Counts of two axes, each off by no more than its ratio and one: how far their products are apart. */
  lemma ProductBound(c0: nat, d0: nat, c: nat, d: nat, r: real, t: real, area: int, scale: real, scaled: real,
                     area0: int, error: real)
    requires Near(c as real * r, c0 as real, r + 1.0) && Near(d as real * t, d0 as real, t + 1.0)
    requires area == c * d && scale == r * t && scaled == area as real * scale
    requires area0 == c0 * d0 && error == AreaError(c0, d0, r, t)
    ensures Near(scaled, area0 as real, error)
  {
    SameProducts(c, d, r, t, c * d, (c as real * r) * (d as real * t));
    CastProduct(c0, d0);
    RealProductBound(c0 as real, d0 as real, c as real * r, d as real * t, r + 1.0, t + 1.0, scaled, area0 as real,
                     error);
  }

  lemma RealProductBound(c0: real, d0: real, x: real, y: real, a: real, e: real, scaled: real, area0: real, error: real)
    requires c0 >= 0.0 && d0 >= 0.0 && Near(x, c0, a) && Near(y, d0, e)
    requires scaled == x * y && area0 == c0 * d0 && error == c0 * e + a * (d0 + e)
    ensures Near(scaled, area0, error)
  {
    ProductClose(c0, d0, x, y, a, e);
  }

  lemma SameProducts(c: nat, d: nat, r: real, t: real, area: int, xy: real)
    requires area == c * d && xy == (c as real * r) * (d as real * t)
    ensures area as real * (r * t) == xy
  {
    CastProduct(c, d);
    Regroup(c as real, d as real, r, t);
  }

  /** Base-level pixels per pixel of a level; 1 for a level the file lacks. */
  function LevelScale(levels: seq<Level>, level: nat): real
    requires level < |levels| ==> levels[level].width > 0 && levels[level].height > 0
  {
    if level < |levels| then WidthRatio(levels[0], levels[level]) * HeightRatio(levels[0], levels[level]) else 1.0
  }

  /** level_scale is what turns the pixel count of a whole level into that of the base level; it is 1 at the base level
      and for a level the file lacks. */
  lemma ScaleTurnsLevelIntoBase(levels: seq<Level>, level: nat)
    requires level < |levels| ==> levels[level].width > 0 && levels[level].height > 0
    ensures level >= |levels| || level == 0 ==> LevelScale(levels, level) == 1.0
    ensures level < |levels| ==>
              (levels[level].width * levels[level].height) as real * LevelScale(levels, level) ==
              (levels[0].width * levels[0].height) as real
  {
    if level < |levels| {
      var l0, l := levels[0], levels[level];
      SameProducts(l.width, l.height, WidthRatio(l0, l), HeightRatio(l0, l), l.width * l.height,
                   (l.width as real * WidthRatio(l0, l)) * (l.height as real * HeightRatio(l0, l)));
      assert l.width as real * WidthRatio(l0, l) == l0.width as real;
      assert l.height as real * HeightRatio(l0, l) == l0.height as real;
      CastProduct(l0.width, l0.height);
      if level == 0 {
        assert l.width as real / l.width as real == 1.0 && l.height as real / l.height as real == 1.0;
      }
    }
  }

  /** Pixels of the base level in the box, column by column and row by row. */
  lemma BaseArea<V>(cog: Cog<V>, b: Bbox, g0: Georef, l0: Level)
    requires WellFormed(cog) && Located(cog, 0) && g0 == cog.georef.value && l0 == cog.levels[0]
    requires l0.width > 0 && l0.height > 0
    ensures Area(cog, b, 0) == Columns(g0, l0, b) * Rows(g0, l0, b)
  {
    AreaIsColumnsByRows(cog, b, 0);
    BaseGeoref(g0, l0);
  }

  lemma ScaleOf(levels: seq<Level>, level: nat, r: real, t: real)
    requires level < |levels| && levels[level].width > 0 && levels[level].height > 0
    requires r == WidthRatio(levels[0], levels[level]) && t == HeightRatio(levels[0], levels[level])
    ensures LevelScale(levels, level) == r * t
  {
  }

  lemma ColumnsOfBoth(g0: Georef, l0: Level, l: Level, b: Bbox, r: real) returns (c: nat)
    requires NorthUp(g0) && l0.width > 0 && l0.height > 0 && l.width > 0 && l.height > 0
    requires ColumnsFit(g0, l0, b) && r == WidthRatio(l0, l)
    ensures c == Columns(LevelGeoref(g0, l0, l), l, b) && Near(c as real * r, Columns(g0, l0, b) as real, r + 1.0)
  {
    c := Columns(LevelGeoref(g0, l0, l), l, b);
    OverviewColumns(g0, l0, LevelGeoref(g0, l0, l), l, b, r);
  }

  lemma RowsOfBoth(g0: Georef, l0: Level, l: Level, b: Bbox, t: real) returns (d: nat)
    requires NorthUp(g0) && l0.width > 0 && l0.height > 0 && l.width > 0 && l.height > 0
    requires RowsFit(g0, l0, b) && t == HeightRatio(l0, l)
    ensures d == Rows(LevelGeoref(g0, l0, l), l, b) && Near(d as real * t, Rows(g0, l0, b) as real, t + 1.0)
  {
    d := Rows(LevelGeoref(g0, l0, l), l, b);
    OverviewRows(g0, l0, LevelGeoref(g0, l0, l), l, b, t);
  }

  lemma AreaOfCounts<V>(cog: Cog<V>, b: Bbox, level: nat, g0: Georef, l0: Level, l: Level, c: nat, d: nat)
    requires WellFormed(cog) && Located(cog, level) && l.width > 0 && l.height > 0
    requires g0 == cog.georef.value && l0 == cog.levels[0] && l == cog.levels[level]
    requires c == Columns(LevelGeoref(g0, l0, l), l, b) && d == Rows(LevelGeoref(g0, l0, l), l, b)
    ensures Area(cog, b, level) == c * d
  {
    AreaIsColumnsByRows(cog, b, level);
  }

  lemma CountsOfBoth<V>(cog: Cog<V>, b: Bbox, level: nat, g0: Georef, l0: Level, l: Level, r: real, t: real)
      returns (c: nat, d: nat)
    requires WellFormed(cog) && Located(cog, level)
    requires g0 == cog.georef.value && l0 == cog.levels[0] && l == cog.levels[level]
    requires l0.width > 0 && l0.height > 0 && l.width > 0 && l.height > 0
    requires ColumnsFit(g0, l0, b) && RowsFit(g0, l0, b) && r == WidthRatio(l0, l) && t == HeightRatio(l0, l)
    ensures Near(c as real * r, Columns(g0, l0, b) as real, r + 1.0)
    ensures Near(d as real * t, Rows(g0, l0, b) as real, t + 1.0)
    ensures Area(cog, b, level) == c * d
  {
    c := ColumnsOfBoth(g0, l0, l, b, r);
    d := RowsOfBoth(g0, l0, l, b, t);
    AreaOfCounts(cog, b, level, g0, l0, l, c, d);
  }

  /** The fast estimate: for a box in the extent, the pixel count of an overview's window times level_scale is the base
      level's pixel count up to AreaError of the base level's columns and rows. */
  lemma ScaledAreaBound<V>(cog: Cog<V>, b: Bbox, level: nat, g0: Georef, l0: Level, l: Level, scaled: real, error: real)
    requires WellFormed(cog) && Located(cog, level)
    requires g0 == cog.georef.value && l0 == cog.levels[0] && l == cog.levels[level]
    requires l0.width > 0 && l0.height > 0 && l.width > 0 && l.height > 0
    requires ColumnsFit(g0, l0, b) && RowsFit(g0, l0, b)
    requires scaled == Area(cog, b, level) as real * LevelScale(cog.levels, level)
    requires error == AreaError(Columns(g0, l0, b), Rows(g0, l0, b), WidthRatio(l0, l), HeightRatio(l0, l))
    ensures Near(scaled, Area(cog, b, 0) as real, error)
  {
    var r, t := WidthRatio(l0, l), HeightRatio(l0, l);
    var c, d := CountsOfBoth(cog, b, level, g0, l0, l, r, t);
    BaseArea(cog, b, g0, l0);
    ScaleOf(cog.levels, level, r, t);
    var c0, d0, area, area0 := Columns(g0, l0, b), Rows(g0, l0, b), Area(cog, b, level), Area(cog, b, 0);
    ProductBound(c0, d0, c, d, r, t, area, LevelScale(cog.levels, level), scaled, area0, error);
  }
}
