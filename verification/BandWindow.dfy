/** Band windows: a row-major array of the pixels of a box, and the same with the pixels outside a polygon blanked. */
module BandWindow {
  import opened Wrappers
  import opened Arrays
  import opened TileStore
  import opened TileSource
  import opened Zone
  import opened Windows
  import opened Grids
  import opened Raster
  import opened WindowScan
  import opened Zonal

  function Width(w: Window): int {
    w.colMax - w.colMin + 1
  }

  function Height(w: Window): int {
    w.rowMax - w.rowMin + 1
  }

  /** Where pixel c of the window goes in its row-major array. */
  function Slot(w: Window, c: Cell): int {
    (c.y - w.rowMin) * Width(w) + (c.x - w.colMin)
  }

  function ValueOf<V>(ops: Ops<V>, stored: Option<V>): Option<V> {
    if stored.Some? then ApplyNodata(ops, stored.value) else None
  }

  /** The naive window: the values of its pixels row by row, nodata as None. */
  function Values<V>(ops: Ops<V>, px: Cell -> Option<V>, pixels: seq<Cell>): (values: seq<Option<V>>)
    ensures |values| == |pixels|
  {
    seq(|pixels|, i requires 0 <= i < |pixels| => ValueOf(ops, px(pixels[i])))
  }

  /** Every pixel of the window is in a decoded tile. */
  ghost predicate AllStored(px: Cell -> bool, w: Window) {
    forall c :: Covers(w, c) ==> px(c)
  }

  function IsStored<V>(cog: Cog<V>, band: nat): Cell -> bool
    requires WellFormed(cog) && cog.levels != [] && band > 0
  {
    (c: Cell) => PixelAt(cog, 0, band, c).Some?
  }

  // ---- slots --------------------------------------------------------------------------------

  lemma SlotInRange(w: Window, c: Cell)
    requires Ordered(w) && Covers(w, c)
    ensures 0 <= Slot(w, c) < Width(w) * Height(w)
  {
    SlotBound(c.x - w.colMin, c.y - w.rowMin, Width(w), Height(w));
  }

  /** Two pixels never share a slot. */
  lemma SlotInjective(w: Window, c: Cell, d: Cell)
    requires Covers(w, c) && Covers(w, d) && Slot(w, c) == Slot(w, d)
    ensures c == d
  {
    SameSlot(c.x - w.colMin, c.y - w.rowMin, d.x - w.colMin, d.y - w.rowMin, Width(w));
  }

  lemma PixelsSize(w: Window)
    requires Ordered(w)
    ensures |Pixels(w)| == Width(w) * Height(w)
  {
    RectSize(w.colMin, w.colMax + 1, w.rowMin, w.rowMax + 1);
  }

  /** The pixel at slot k, as row and column of the array. */
  lemma SlotPixel(w: Window, k: nat)
    requires Ordered(w) && k < |Pixels(w)|
    ensures Pixels(w)[k] == Cell(w.colMin + k % Width(w), w.rowMin + k / Width(w))
    ensures Covers(w, Pixels(w)[k]) && Slot(w, Pixels(w)[k]) == k
  {
    var n: nat, m: nat := Width(w), Height(w);
    PixelsSize(w);
    RowOfSlot(k, n, m);
    var i: nat, j: nat := k % n, k / n;
    RectAt(w.colMin, w.colMax + 1, w.rowMin, w.rowMax + 1, i, j);
  }

  lemma RowOfSlot(k: nat, n: nat, m: nat)
    requires n > 0 && k < n * m
    ensures 0 <= k / n < m && k / n * n + k % n == k
  {
    MulMono(m, k / n, n);
  }

  lemma TwiceCounts(s: seq<Cell>, n: nat, m: nat)
    requires n < m < |s| && s[n] == s[m]
    ensures multiset(s)[s[n]] >= 2
  {
    assert s == s[..m] + s[m..];
    assert s[..m][n] in multiset(s[..m]) && s[m..][0] in multiset(s[m..]);
  }

  /** Tile by tile, every slot of the window's array is written exactly once. */
  lemma EachSlotOnce(w: Window, tw: nat, th: nat, k: nat)
    requires Ordered(w) && tw > 0 && th > 0 && k < |Pixels(w)|
    ensures var visited := Visit(w, WindowTiles(w, tw, th), tw, th);
            && (exists n :: 0 <= n < |visited| && Slot(w, visited[n]) == k)
            && (forall n, m :: 0 <= n < m < |visited| ==> Slot(w, visited[n]) != Slot(w, visited[m]))
  {
    var visited := Visit(w, WindowTiles(w, tw, th), tw, th);
    SlotPixel(w, k);
    AllVisited(w, tw, th);
    TilesPartitionWindow(w, tw, th);
    forall n, m | 0 <= n < m < |visited| ensures Slot(w, visited[n]) != Slot(w, visited[m]) {
      assert multiset(visited)[visited[n]] > 0 && multiset(visited)[visited[m]] > 0;
      assert multiset(Pixels(w))[visited[n]] == One(Covers(w, visited[n]));
      assert multiset(Pixels(w))[visited[m]] == One(Covers(w, visited[m]));
      if Slot(w, visited[n]) == Slot(w, visited[m]) {
        SlotInjective(w, visited[n], visited[m]);
        TwiceCounts(visited, n, m);
        assert false;
      }
    }
  }

  // ---- painting -----------------------------------------------------------------------------

  /** The slots of the pixels in `done` hold their values. */
  ghost predicate Painted<V>(ops: Ops<V>, px: Cell -> Option<V>, w: Window, out: seq<Option<V>>, done: seq<Cell>)
    requires Ordered(w)
  {
    && |out| == Width(w) * Height(w)
    && forall c {:trigger Slot(w, c)} :: c in done && Covers(w, c) ==>
         0 <= Slot(w, c) < |out| && px(c).Some? && out[Slot(w, c)] == ApplyNodata(ops, px(c).value)
  }

  lemma PaintOne<V>(ops: Ops<V>, px: Cell -> Option<V>, w: Window, out: seq<Option<V>>, out': seq<Option<V>>,
                    done: seq<Cell>, d: Cell)
    requires Ordered(w) && Painted(ops, px, w, out, done) && Covers(w, d) && px(d).Some? && 0 <= Slot(w, d) < |out|
    requires out' == out[Slot(w, d) := ApplyNodata(ops, px(d).value)]
    ensures Painted(ops, px, w, out', done + [d])
  {
    forall c {:trigger Slot(w, c)} | c in done + [d] && Covers(w, c)
      ensures 0 <= Slot(w, c) < |out'| && px(c).Some? && out'[Slot(w, c)] == ApplyNodata(ops, px(c).value)
    {
      if Slot(w, c) == Slot(w, d) {
        SlotInjective(w, c, d);
      }
    }
  }

  /** When all pixels of the window are painted the array is the naive window. */
  lemma PaintedAll<V>(ops: Ops<V>, px: Cell -> Option<V>, w: Window, out: seq<Option<V>>, done: seq<Cell>)
    requires Ordered(w) && Painted(ops, px, w, out, done)
    requires forall c :: Covers(w, c) ==> c in done
    ensures out == Values(ops, px, Pixels(w))
  {
    PixelsSize(w);
    forall k | 0 <= k < |out| ensures out[k] == Values(ops, px, Pixels(w))[k] {
      SlotPixel(w, k);
    }
  }

  lemma TileOfWithin(t: Cell, tw: nat, th: nat, t0: Cell, c: Cell)
    requires tw > 0 && th > 0 && t0 == Corner(t, tw, th)
    requires t0.x <= c.x < t0.x + tw && t0.y <= c.y < t0.y + th
    ensures TileOf(c, tw, th) == t
  {
    DivIsTile(c.x, t.x, tw);
    DivIsTile(c.y, t.y, th);
  }

  /** One pixel of the window, from tile t with corner t0; false if the tile does not contain it. */
  method PaintPixel<V>(out: array<Option<V>>, ops: Ops<V>, cog: Cog<V>, band: nat, w: Window, t: Cell, t0: Cell,
                       arr: Array<V>,
                       pixel: Cell, ghost done: seq<Cell>) returns (ok: bool)
    requires WellFormed(cog) && cog.levels != [] && band > 0 && Ordered(w) && Covers(w, pixel)
    requires t0 == Corner(t, cog.levels[0].tileWidth, cog.levels[0].tileHeight)
    requires cog.source(KeyAt(cog, 0, t)) == Tile(arr)
    requires t0.x <= pixel.x < t0.x + cog.levels[0].tileWidth && t0.y <= pixel.y < t0.y + cog.levels[0].tileHeight
    requires Painted(ops, Stored(cog, 0, band), w, out[..], done)
    modifies out
    ensures ok ==> Painted(ops, Stored(cog, 0, band), w, out[..], done + [pixel])
    ensures !ok ==> !AllStored(IsStored(cog, band), w)
  {
    ghost var px := Stored(cog, 0, band);
    TileOfWithin(t, cog.levels[0].tileWidth, cog.levels[0].tileHeight, t0, pixel);
    LocalIsStoredAt(cog, 0, band, t, arr, pixel);
    var r: nat, c: nat := pixel.y - t0.y, pixel.x - t0.x;
    var value := SampleArray(arr, cog.planar(0), r, c, band - 1);
    assert value == px(pixel);
    if value.None? {
      assert !IsStored(cog, band)(pixel);
      return false;
    }
    SlotInRange(w, pixel);
    var gi := Slot(w, pixel);
    PaintOne(ops, px, w, out[..], out[..][gi := ApplyNodata(ops, value.value)], done, pixel);
    out[gi] := ApplyNodata(ops, value.value);
    ok := true;
  }

  /** Pixels x0 to x1 of image row y. */
  method PaintRow<V>(out: array<Option<V>>, ops: Ops<V>, cog: Cog<V>, band: nat, w: Window, t: Cell, t0: Cell,
                     arr: Array<V>,
                     x0: nat, x1: nat, y: nat, ghost done: seq<Cell>) returns (ok: bool)
    requires WellFormed(cog) && cog.levels != [] && band > 0 && Ordered(w)
    requires t0 == Corner(t, cog.levels[0].tileWidth, cog.levels[0].tileHeight)
    requires cog.source(KeyAt(cog, 0, t)) == Tile(arr)
    requires t0.x <= x0 <= x1 <= t0.x + cog.levels[0].tileWidth && t0.y <= y < t0.y + cog.levels[0].tileHeight
    requires w.colMin <= x0 && x1 <= w.colMax + 1 && w.rowMin <= y <= w.rowMax
    requires Painted(ops, Stored(cog, 0, band), w, out[..], done)
    modifies out
    ensures ok ==> Painted(ops, Stored(cog, 0, band), w, out[..], done + Row(x0, x1, y))
    ensures !ok ==> !AllStored(IsStored(cog, band), w)
  {
    ghost var painted := done;
    assert done + Row(x0, x0, y) == done;
    for x := x0 to x1
      invariant painted == done + Row(x0, x, y)
      invariant Painted(ops, Stored(cog, 0, band), w, out[..], painted)
    {
      ok := PaintPixel(out, ops, cog, band, w, t, t0, arr, Cell(x, y), painted);
      if !ok {
        return;
      }
      painted := painted + [Cell(x, y)];
    }
    ok := true;
  }

  /** Rows y0 to y1 of them. */
  method PaintRows<V>(out: array<Option<V>>, ops: Ops<V>, cog: Cog<V>, band: nat, w: Window, t: Cell, t0: Cell,
                      arr: Array<V>,
                      x0: nat, x1: nat, y0: nat, y1: nat, ghost done: seq<Cell>) returns (ok: bool)
    requires WellFormed(cog) && cog.levels != [] && band > 0 && Ordered(w)
    requires t0 == Corner(t, cog.levels[0].tileWidth, cog.levels[0].tileHeight)
    requires cog.source(KeyAt(cog, 0, t)) == Tile(arr)
    requires t0.x <= x0 <= x1 <= t0.x + cog.levels[0].tileWidth && t0.y <= y0 <= y1 <= t0.y + cog.levels[0].tileHeight
    requires w.colMin <= x0 && x1 <= w.colMax + 1 && w.rowMin <= y0 && y1 <= w.rowMax + 1
    requires Painted(ops, Stored(cog, 0, band), w, out[..], done)
    modifies out
    ensures ok ==> Painted(ops, Stored(cog, 0, band), w, out[..], done + Rect(x0, x1, y0, y1))
    ensures !ok ==> !AllStored(IsStored(cog, band), w)
  {
    assert done + Rect(x0, x1, y0, y0) == done;
    for y := y0 to y1
      invariant Painted(ops, Stored(cog, 0, band), w, out[..], done + Rect(x0, x1, y0, y))
    {
      ok := PaintRow(out, ops, cog, band, w, t, t0, arr, x0, x1, y, done + Rect(x0, x1, y0, y));
      if !ok {
        return;
      }
      RectNext(x0, x1, y0, y);
      assert done + Rect(x0, x1, y0, y) + Row(x0, x1, y) == done + Rect(x0, x1, y0, y + 1);
    }
    ok := true;
  }

  /** The part of the window on tile t. Local indices do not underflow and stay inside the tile. */
  method PaintTile<V>(out: array<Option<V>>, ops: Ops<V>, cog: Cog<V>, band: nat, w: Window, t: Cell, arr: Array<V>,
                      ghost done: seq<Cell>, ghost clip: seq<Cell>) returns (ok: bool)
    requires WellFormed(cog) && cog.levels != [] && band > 0 && Ordered(w)
    requires t in WindowTiles(w, cog.levels[0].tileWidth, cog.levels[0].tileHeight)
    requires cog.source(KeyAt(cog, 0, t)) == Tile(arr)
    requires Painted(ops, Stored(cog, 0, band), w, out[..], done)
    requires clip == Clip(w, t, cog.levels[0].tileWidth, cog.levels[0].tileHeight)
    modifies out
    ensures ok ==> Painted(ops, Stored(cog, 0, band), w, out[..], done + clip)
    ensures !ok ==> !AllStored(IsStored(cog, band), w)
  {
    var tw, th := cog.levels[0].tileWidth, cog.levels[0].tileHeight;
    var t0 := Corner(t, tw, th);
    TileTouches(w, tw, th, t);
    var r0: nat := MaxInt(w.rowMin, t0.y) - t0.y;
    var r1: nat := MinInt(w.rowMax, t0.y + th - 1) - t0.y;
    var c0: nat := MaxInt(w.colMin, t0.x) - t0.x;
    var c1: nat := MinInt(w.colMax, t0.x + tw - 1) - t0.x;
    assert c0 <= c1 < tw && r0 <= r1 < th;
    var x0, x1, y0, y1 := t0.x + c0, t0.x + c1 + 1, t0.y + r0, t0.y + r1 + 1;
    ClipBounds(w, t0, tw, th, x0, x1, y0, y1, clip);
    ok := PaintRows(out, ops, cog, band, w, t, t0, arr, x0, x1, y0, y1, done);
  }

  /** Fill the array of a window from the arrays of its tiles. */
  method PaintArrays<V>(ops: Ops<V>, cog: Cog<V>, band: nat, w: Window, tiles: seq<Cell>, arrays: seq<Array<V>>)
      returns (r: Result<seq<Option<V>>, MetaError>)
    requires WellFormed(cog) && cog.levels != [] && band > 0 && Ordered(w)
    requires tiles == WindowTiles(w, cog.levels[0].tileWidth, cog.levels[0].tileHeight)
    requires FetchAll(cog.source, TileKeys(cog, 0, tiles)) == Ok(arrays)
    ensures r == if AllStored(IsStored(cog, band), w)
                 then Ok(Values(ops, Stored(cog, 0, band), Pixels(w))) else Err(Tiff)
  {
    var tw, th := cog.levels[0].tileWidth, cog.levels[0].tileHeight;
    PixelsSize(w);
    FetchedArrays(cog, 0, tiles, arrays);
    var out := new Option<V>[Width(w) * Height(w)](i => None);
    for i := 0 to |tiles|
      invariant Painted(ops, Stored(cog, 0, band), w, out[..], Visit(w, tiles[..i], tw, th))
    {
      var ok := PaintTile(out, ops, cog, band, w, tiles[i], arrays[i],
                          Visit(w, tiles[..i], tw, th), Clip(w, tiles[i], tw, th));
      if !ok {
        return Err(Tiff);
      }
      VisitNext(w, tiles, tw, th, i);
    }
    assert tiles[..|tiles|] == tiles;
    AllVisited(w, tw, th);
    PaintedAll(ops, Stored(cog, 0, band), w, out[..], Visit(w, tiles, tw, th));
    AllPaintedStored(ops, cog, band, w, out[..], Visit(w, tiles, tw, th));
    r := Ok(out[..]);
  }

  /** All the tiles of a window fetched at once, then painted one after the other. */
  method PaintWindow<V>(ops: Ops<V>, cog: Cog<V>, band: nat, w: Window) returns (r: Result<seq<Option<V>>, MetaError>)
    requires WellFormed(cog) && cog.levels != [] && band > 0 && Ordered(w)
    ensures r == if AllStored(IsStored(cog, band), w)
                 then Ok(Values(ops, Stored(cog, 0, band), Pixels(w))) else Err(Tiff)
  {
    var tiles := TilesOf(w, cog.levels[0].tileWidth, cog.levels[0].tileHeight);
    var arrays := FetchUncached(cog.source, TileKeys(cog, 0, tiles));
    if arrays.Err? {
      var c := UndecodedTileHidesPixel(cog, 0, w, band);
      assert !IsStored(cog, band)(c);
      return Err(Tiff);
    }
    r := PaintArrays(ops, cog, band, w, tiles, arrays.value);
  }

  lemma AllVisited(w: Window, tw: nat, th: nat)
    requires tw > 0 && th > 0
    ensures forall c :: Covers(w, c) ==> c in Visit(w, WindowTiles(w, tw, th), tw, th)
  {
    var visited := Visit(w, WindowTiles(w, tw, th), tw, th);
    TilesPartitionWindow(w, tw, th);
    forall c | Covers(w, c) ensures c in visited {
      assert multiset(visited)[c] == multiset(Pixels(w))[c] == 1;
    }
  }

  lemma AllPaintedStored<V>(ops: Ops<V>, cog: Cog<V>, band: nat, w: Window, out: seq<Option<V>>, done: seq<Cell>)
    requires WellFormed(cog) && cog.levels != [] && band > 0 && Ordered(w)
    requires Painted(ops, Stored(cog, 0, band), w, out, done)
    requires forall c :: Covers(w, c) ==> c in done
    ensures AllStored(IsStored(cog, band), w)
  {
    forall c | Covers(w, c) ensures IsStored(cog, band)(c) {
      SlotInRange(w, c);
    }
  }

  // ---- band_window and band_window_polygon --------------------------------------------------

  type BandResult<V> = Result<Option<seq<Option<V>>>, MetaError>

  function ToBand<V>(r: Result<seq<Option<V>>, MetaError>): BandResult<V> {
    if r.Ok? then Ok(Some(r.value)) else Err(r.error)
  }

  /** The naive window of the base level: an error if one of its pixels is in no decoded tile. */
  ghost function WindowValues<V>(ops: Ops<V>, cog: Cog<V>, band: nat, w: Window): BandResult<V>
    requires WellFormed(cog) && cog.levels != [] && band > 0
  {
    if AllStored(IsStored(cog, band), w) then Ok(Some(Values(ops, Stored(cog, 0, band), Pixels(w)))) else Err(Tiff)
  }

  function WholeBand(l: Level): Window
    requires l.width > 0 && l.height > 0
  {
    Window(0, l.width - 1, 0, l.height - 1)
  }

  /** What band_window must return. */
  ghost function BandOf<V>(ops: Ops<V>, cog: Cog<V>, b: Option<Bbox>, band: nat): BandResult<V>
    requires WellFormed(cog)
  {
    if cog.levels == [] || !HasBand(cog, band) then Ok(None)
    else if cog.levels[0].width == 0 || cog.levels[0].height == 0 then Ok(Some([]))
    else if b.None? then WindowValues(ops, cog, band, WholeBand(cog.levels[0]))
    else if !ValidBox(b.value) then Err(InvalidFilter)
    else if cog.georef.None? then Err(NotGeoreferenced)
    else
      var w := CenterWindow(cog.georef.value, cog.levels[0], b.value);
      if w.None? then Ok(Some([])) else WindowValues(ops, cog, band, w.value)
  }

  method ReadBandWindow<V>(ops: Ops<V>, cog: Cog<V>, b: Option<Bbox>, band: nat) returns (r: BandResult<V>)
    requires WellFormed(cog)
    ensures r == BandOf(ops, cog, b, band)
  {
    if cog.levels == [] {
      return Ok(None);
    }
    if band == 0 || band > cog.numBands {
      return Ok(None);
    }
    var l0 := cog.levels[0];
    if l0.width == 0 || l0.height == 0 {
      return Ok(Some([]));
    }
    var w := WholeBand(l0);
    if b.Some? {
      if b.value.xmin > b.value.xmax || b.value.ymin > b.value.ymax {
        return Err(InvalidFilter);
      }
      if cog.georef.None? {
        return Err(NotGeoreferenced);
      }
      var window := CenterWindow(cog.georef.value, l0, b.value);
      if window.None? {
        return Ok(Some([]));
      }
      w := window.value;
    }
    var painted := PaintWindow(ops, cog, band, w);
    r := ToBand(painted);
  }

  /** A window's values with the pixels whose centre is outside a zone blanked. */
  ghost function Masked<V>(cog: Cog<V>, z: Zone, pixels: seq<Cell>, values: seq<Option<V>>): (r: seq<Option<V>>)
    requires Located(cog, 0) && |values| == |pixels|
    ensures |r| == |values|
  {
    seq(|values|, i requires 0 <= i < |values| => if CenterInside(cog, 0, z)(pixels[i]) then values[i] else None)
  }

  /** What band_window_polygon must return. */
  ghost function PolygonBandOf<V>(ops: Ops<V>, cog: Cog<V>, z: Zone, band: nat): BandResult<V>
    requires WellFormed(cog)
  {
    if EnvelopeOf(z).None? then Ok(if HasBand(cog, band) then Some([]) else None)
    else if cog.levels == [] || !HasBand(cog, band) then Ok(None)
    else if cog.levels[0].width == 0 || cog.levels[0].height == 0 then Ok(Some([]))
    else if cog.georef.None? then Err(NotGeoreferenced)
    else
      var w := CenterWindow(cog.georef.value, cog.levels[0], EnvelopeOf(z).value);
      if w.None? then Ok(Some([]))
      else if !AllStored(IsStored(cog, band), w.value) then Err(Tiff)
      else Ok(Some(Masked(cog, z, Pixels(w.value), Values(ops, Stored(cog, 0, band), Pixels(w.value)))))
  }

  lemma TightIsValid(points: seq<Point>, b: Bbox)
    requires TightBox(points, b)
    ensures ValidBox(b)
  {
  }

  /** The loop that blanks: slot i belongs to column i % width, row i / width of the window. */
  method BlankOutside<V>(cog: Cog<V>, z: Zone, w: Window, values: seq<Option<V>>) returns (win: seq<Option<V>>)
    requires Located(cog, 0) && cog.levels[0].width > 0 && cog.levels[0].height > 0
    requires Ordered(w) && |values| == |Pixels(w)|
    ensures win == Masked(cog, z, Pixels(w), values)
  {
    var g := cog.georef.value;
    var width := Width(w);
    BaseGeoref(g, cog.levels[0]);
    win := values;
    for i := 0 to |win|
      invariant |win| == |values|
      invariant forall k :: 0 <= k < i ==> win[k] == Masked(cog, z, Pixels(w), values)[k]
      invariant forall k :: i <= k < |win| ==> win[k] == values[k]
    {
      assert win[i] == values[i];
      assert Masked(cog, z, Pixels(w), values)[i] == if CenterInside(cog, 0, z)(Pixels(w)[i]) then values[i] else None;
      if win[i].None? {
        continue;
      }
      SlotPixel(w, i);
      var col, row := w.colMin + i % width, w.rowMin + i / width;
      var center := Center(g, col, row);
      assert CenterAt(cog, 0, Pixels(w)[i]) == center;
      var inside := Contains(z, center.x, center.y);
      assert inside == CenterInside(cog, 0, z)(Pixels(w)[i]);
      if !inside {
        win := win[i := None];
      }
    }
  }

  method ReadBandWindowPolygon<V>(ops: Ops<V>, cog: Cog<V>, z: Zone, band: nat) returns (r: BandResult<V>)
    requires WellFormed(cog)
    ensures r == PolygonBandOf(ops, cog, z, band)
  {
    var env := Envelope(z);
    if env.None? {
      if band == 0 || band > cog.numBands {
        return Ok(None);
      }
      return Ok(Some([]));
    }
    TightBoxUnique(ExteriorPoints(z.polygons), env.value, EnvelopeOf(z).value);
    TightIsValid(ExteriorPoints(z.polygons), env.value);
    r := ReadBandWindow(ops, cog, env, band);
    if r.Err? || r.value.None? || r.value.value == [] {
      return;
    }
    if cog.georef.None? || cog.levels == [] {
      return;
    }
    var window := CenterWindow(cog.georef.value, cog.levels[0], env.value);
    if window.None? {
      return Ok(Some([]));
    }
    var win := BlankOutside(cog, z, window.value, r.value.value);
    r := Ok(Some(win));
  }
}
