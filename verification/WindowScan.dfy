/** Accumulating a pixel window tile by tile: the common core of bbox, polygon and batch zonal. */
module WindowScan {
  import opened Wrappers
  import opened Arrays
  import opened TileStore
  import opened TileSource
  import opened Windows
  import opened Grids
  import opened Raster

  predicate Ordered(w: Window) {
    w.colMin <= w.colMax && w.rowMin <= w.rowMax
  }

  /** What the window comes to, its tiles taken row-major: all must decode, then their parts are scanned. */
  function WindowStats<V>(ops: Ops<V>, cog: Cog<V>, level: nat, w: Window, band: nat, keep: Cell -> bool): Scanned<V>
    requires WellFormed(cog) && level < |cog.levels| && band > 0
  {
    var (tw, th) := (cog.levels[level].tileWidth, cog.levels[level].tileHeight);
    if AllDecode(cog.source, TileKeys(cog, level, WindowTiles(w, tw, th))) then
      Scan(ops, Stored(cog, level, band), keep, Ok(Empty(ops)), Visit(w, WindowTiles(w, tw, th), tw, th))
    else Err(Tiff)
  }

  /** The nested loops that list a rectangle of tiles. */
  method ListRect(x0: nat, x1: nat, y0: nat, y1: nat) returns (tiles: seq<Cell>)
    requires x0 <= x1 && y0 <= y1
    ensures tiles == Rect(x0, x1, y0, y1)
  {
    tiles := [];
    for ty := y0 to y1
      invariant tiles == Rect(x0, x1, y0, ty)
    {
      for tx := x0 to x1
        invariant tiles == Rect(x0, x1, y0, ty) + Row(x0, tx, ty)
      {
        tiles := tiles + [Cell(tx, ty)];
      }
    }
  }

  method TilesOf(w: Window, tw: nat, th: nat) returns (tiles: seq<Cell>)
    requires Ordered(w) && tw > 0 && th > 0
    ensures tiles == WindowTiles(w, tw, th)
  {
    DivMono(w.colMin, w.colMax, tw);
    DivMono(w.rowMin, w.rowMax, th);
    tiles := ListRect(w.colMin / tw, w.colMax / tw + 1, w.rowMin / th, w.rowMax / th + 1);
  }

  /** A tile array read at image coordinates, its corner at t0. */
  function Local<V>(arr: Array<V>, planar: Planar, t0: Cell, band0: nat): Cell -> Option<V> {
    (c: Cell) => if c.x >= t0.x && c.y >= t0.y then SampleArray(arr, planar, c.y - t0.y, c.x - t0.x, band0) else None
  }

  predicate Touches(w: Window, t0: Cell, tw: nat, th: nat) {
    && w.colMin < t0.x + tw && t0.x <= w.colMax
    && w.rowMin < t0.y + th && t0.y <= w.rowMax
  }

  lemma {:induction false} ScanFromErr<V>(ops: Ops<V>, px: Cell -> Option<V>, keep: Cell -> bool, e: MetaError,
                                          list: seq<Cell>)
    ensures Scan(ops, px, keep, Err(e), list) == Err(e)
  {
    if list != [] {
      ScanFromErr(ops, px, keep, e, list[..|list| - 1]);
      ScanLast(ops, px, keep, Err(e), list);
    }
  }

  /** An error part of the way down is the error of the whole rectangle. */
  lemma {:induction false} RowErrorStays<V>(ops: Ops<V>, px: Cell -> Option<V>, keep: Cell -> bool, start: Scanned<V>,
                                            x0: nat, x1: int, y0: nat, y: nat, y1: nat)
    requires y0 <= y <= y1 && Scan(ops, px, keep, start, Rect(x0, x1, y0, y)).Err?
    ensures Scan(ops, px, keep, start, Rect(x0, x1, y0, y1)) == Scan(ops, px, keep, start, Rect(x0, x1, y0, y))
    decreases y1
  {
    if y < y1 {
      RowErrorStays(ops, px, keep, start, x0, x1, y0, y, y1 - 1);
      ScanConcat(ops, px, keep, start, Rect(x0, x1, y0, y1 - 1), Row(x0, x1, y1 - 1));
      ScanFromErr(ops, px, keep, Scan(ops, px, keep, start, Rect(x0, x1, y0, y)).error, Row(x0, x1, y1 - 1));
    }
  }

  lemma {:induction false} ErrorStaysInRow<V>(ops: Ops<V>, px: Cell -> Option<V>, keep: Cell -> bool, start: Scanned<V>,
                                              x0: nat, x: nat, x1: nat, y: nat)
    requires x0 <= x <= x1 && Scan(ops, px, keep, start, Row(x0, x, y)).Err?
    ensures Scan(ops, px, keep, start, Row(x0, x1, y)) == Scan(ops, px, keep, start, Row(x0, x, y))
    decreases x1
  {
    if x < x1 {
      ErrorStaysInRow(ops, px, keep, start, x0, x, x1 - 1, y);
      ScanNext(ops, px, keep, start, Row(x0, x1 - 1, y), Cell(x1 - 1, y));
    }
  }

  /** Pixels x0 to x1 of image row y, read from a tile whose corner is t0. */
  method AccumulateRow<V>(ops: Ops<V>, before: Stats<V>, arr: Array<V>, planar: Planar, t0: Cell, x0: nat, x1: nat,
                          y: nat,
                          band: nat, keep: Cell -> bool) returns (after: Scanned<V>)
    requires band > 0 && t0.x <= x0 <= x1 && t0.y <= y
    ensures after == Scan(ops, Local(arr, planar, t0, band - 1), keep, Ok(before), Row(x0, x1, y))
  {
    ghost var px := Local(arr, planar, t0, band - 1);
    var acc := before;
    for x := x0 to x1
      invariant Ok(acc) == Scan(ops, px, keep, Ok(before), Row(x0, x, y))
    {
      var r: nat, c: nat := y - t0.y, x - t0.x;
      ScanNext(ops, px, keep, Ok(before), Row(x0, x, y), Cell(x, y));
      if !keep(Cell(x, y)) {
        continue;
      }
      var value := SampleArray(arr, planar, r, c, band - 1);
      if value.None? {
        ErrorStaysInRow(ops, px, keep, Ok(before), x0, x + 1, x1, y);
        return Err(Tiff);
      }
      if ApplyNodata(ops, value.value).Some? {
        acc := AddValue(ops, acc, value.value);
      }
    }
    after := Ok(acc);
  }

  lemma RowsNext<V>(ops: Ops<V>, px: Cell -> Option<V>, keep: Cell -> bool, start: Scanned<V>, x0: nat, x1: int,
                    y0: nat, y: nat)
    requires y0 <= y
    ensures Scan(ops, px, keep, start, Rect(x0, x1, y0, y + 1)) ==
              Scan(ops, px, keep, Scan(ops, px, keep, start, Rect(x0, x1, y0, y)), Row(x0, x1, y))
  {
    RectNext(x0, x1, y0, y);
    ScanConcat(ops, px, keep, start, Rect(x0, x1, y0, y), Row(x0, x1, y));
  }

  /** After one more row: what the rows so far come to, and on an error all of them. */
  lemma RowsAfter<V>(ops: Ops<V>, px: Cell -> Option<V>, keep: Cell -> bool, start: Scanned<V>, x0: nat, x1: int,
                     y0: nat, y: nat, y1: nat, sofar: Scanned<V>, after: Scanned<V>)
    requires y0 <= y < y1 && sofar == Scan(ops, px, keep, start, Rect(x0, x1, y0, y))
    requires after == Scan(ops, px, keep, sofar, Row(x0, x1, y))
    ensures after == Scan(ops, px, keep, start, Rect(x0, x1, y0, y + 1))
    ensures after.Err? ==> after == Scan(ops, px, keep, start, Rect(x0, x1, y0, y1))
  {
    RowsNext(ops, px, keep, start, x0, x1, y0, y);
    if after.Err? {
      RowErrorStays(ops, px, keep, start, x0, x1, y0, y + 1, y1);
    }
  }

  /** Rows y0 to y1 of them. */
  method AccumulateRows<V>(ops: Ops<V>, before: Stats<V>, arr: Array<V>, planar: Planar, t0: Cell, x0: nat, x1: nat,
                           y0: nat, y1: nat,
                           band: nat, keep: Cell -> bool) returns (after: Scanned<V>)
    requires band > 0 && t0.x <= x0 <= x1 && t0.y <= y0 <= y1
    ensures after == Scan(ops, Local(arr, planar, t0, band - 1), keep, Ok(before), Rect(x0, x1, y0, y1))
  {
    ghost var px := Local(arr, planar, t0, band - 1);
    var acc := before;
    for y := y0 to y1
      invariant Ok(acc) == Scan(ops, px, keep, Ok(before), Rect(x0, x1, y0, y))
    {
      after := AccumulateRow(ops, acc, arr, planar, t0, x0, x1, y, band, keep);
      RowsAfter(ops, px, keep, Ok(before), x0, x1, y0, y, y1, Ok(acc), after);
      if after.Err? {
        return;
      }
      acc := after.value;
    }
    after := Ok(acc);
  }

  lemma ClipBounds(w: Window, t0: Cell, tw: nat, th: nat, x0: nat, x1: nat, y0: nat, y1: nat, clip: seq<Cell>)
    requires x0 == MaxInt(w.colMin, t0.x) && x1 == MinInt(w.colMax, t0.x + tw - 1) + 1
    requires y0 == MaxInt(w.rowMin, t0.y) && y1 == MinInt(w.rowMax, t0.y + th - 1) + 1
    requires clip == ClipAt(w, t0, tw, th)
    ensures clip == Rect(x0, x1, y0, y1)
  {
  }

  /** One tile. The bounds are indices into the tile: they never underflow and stay inside it. */
  method AccumulateTile<V>(ops: Ops<V>, before: Stats<V>, arr: Array<V>, planar: Planar, w: Window, t0: Cell, tw: nat,
                           th: nat,
                           band: nat, keep: Cell -> bool) returns (after: Scanned<V>)
    requires Ordered(w) && band > 0 && tw > 0 && th > 0 && Touches(w, t0, tw, th)
    ensures after == Scan(ops, Local(arr, planar, t0, band - 1), keep, Ok(before), ClipAt(w, t0, tw, th))
  {
    var r0: nat := MaxInt(w.rowMin, t0.y) - t0.y;
    var r1: nat := MinInt(w.rowMax, t0.y + th - 1) - t0.y;
    var c0: nat := MaxInt(w.colMin, t0.x) - t0.x;
    var c1: nat := MinInt(w.colMax, t0.x + tw - 1) - t0.x;
    assert c0 <= c1 < tw && r0 <= r1 < th;
    var x0, x1, y0, y1 := t0.x + c0, t0.x + c1 + 1, t0.y + r0, t0.y + r1 + 1;
    ghost var clip := ClipAt(w, t0, tw, th);
    ClipBounds(w, t0, tw, th, x0, x1, y0, y1, clip);
    after := AccumulateRows(ops, before, arr, planar, t0, x0, x1, y0, y1, band, keep);
  }

  /** A listed tile shares pixels with the window. */
  lemma TileTouches(w: Window, tw: nat, th: nat, t: Cell)
    requires Ordered(w) && tw > 0 && th > 0 && t in WindowTiles(w, tw, th)
    ensures Touches(w, Corner(t, tw, th), tw, th)
  {
    RectHas(w.colMin / tw, w.colMax / tw + 1, w.rowMin / th, w.rowMax / th + 1, t);
    RangeTouches(w.colMin, w.colMax, t.x, tw);
    RangeTouches(w.rowMin, w.rowMax, t.y, th);
  }

  lemma RangeTouches(lo: nat, hi: nat, t: nat, n: nat)
    requires n > 0 && lo / n <= t <= hi / n
    ensures lo < t * n + n && t * n <= hi
  {
    assert lo == lo / n * n + lo % n && hi == hi / n * n + hi % n;
    Steps(lo / n, t, n);
    Steps(t, hi / n, n);
  }

  /** Position in a tile: what is left of the coordinate. */
  lemma OffsetIsRemainder(c: nat, t: nat, n: nat)
    requires n > 0 && c / n == t
    ensures t * n <= c && c - t * n == c % n
  {
  }

  lemma InClip(w: Window, t: Cell, tw: nat, th: nat, c: Cell)
    requires tw > 0 && th > 0 && c in Clip(w, t, tw, th)
    ensures TileOf(c, tw, th) == t
  {
    ClipCount(w, t, tw, th, c);
    assert multiset(Clip(w, t, tw, th))[c] > 0;
  }

  lemma LocalIsStoredAt<V>(cog: Cog<V>, level: nat, band: nat, t: Cell, arr: Array<V>, c: Cell)
    requires WellFormed(cog) && level < |cog.levels| && band > 0
    requires cog.source(KeyAt(cog, level, t)) == Tile(arr)
    requires TileOf(c, cog.levels[level].tileWidth, cog.levels[level].tileHeight) == t
    ensures var t0 := Corner(t, cog.levels[level].tileWidth, cog.levels[level].tileHeight);
            Local(arr, cog.planar(level), t0, band - 1)(c) == PixelAt(cog, level, band, c)
  {
    OffsetIsRemainder(c.x, t.x, cog.levels[level].tileWidth);
    OffsetIsRemainder(c.y, t.y, cog.levels[level].tileHeight);
  }

  /** On its own part of the window the tile array is what the raster stores. */
  lemma LocalIsStored<V>(cog: Cog<V>, level: nat, band: nat, w: Window, t: Cell, arr: Array<V>, px: Cell -> Option<V>,
                         clip: seq<Cell>)
    requires WellFormed(cog) && level < |cog.levels| && band > 0
    requires cog.source(KeyAt(cog, level, t)) == Tile(arr)
    requires px == Local(arr, cog.planar(level), Corner(t, cog.levels[level].tileWidth, cog.levels[level].tileHeight),
                         band - 1)
    requires clip == Clip(w, t, cog.levels[level].tileWidth, cog.levels[level].tileHeight)
    ensures SameAt(px, Stored(cog, level, band), clip)
  {
    forall i | 0 <= i < |clip| ensures px(clip[i]) == Stored(cog, level, band)(clip[i]) {
      InClip(w, t, cog.levels[level].tileWidth, cog.levels[level].tileHeight, clip[i]);
      LocalIsStoredAt(cog, level, band, t, arr, clip[i]);
    }
  }

  lemma VisitNext(w: Window, tiles: seq<Cell>, tw: nat, th: nat, i: nat)
    requires i < |tiles|
    ensures Visit(w, tiles[..i + 1], tw, th) == Visit(w, tiles[..i], tw, th) + Clip(w, tiles[i], tw, th)
  {
    assert tiles[..i + 1][..i] == tiles[..i];
  }

  /** What a list of tile arrays comes to: each read at its own place, its part of the window scanned, in order. */
  function FromArrays<V>(ops: Ops<V>, planar: Planar, tw: nat, th: nat, w: Window, band: nat, keep: Cell -> bool,
                         tiles: seq<Cell>, arrays: seq<Array<V>>): Scanned<V>
    requires band > 0 && |arrays| == |tiles|
  {
    if tiles == [] then Ok(Empty(ops))
    else
      var n := |tiles| - 1;
      Scan(ops, Local(arrays[n], planar, Corner(tiles[n], tw, th), band - 1), keep,
           FromArrays(ops, planar, tw, th, w, band, keep, tiles[..n], arrays[..n]), Clip(w, tiles[n], tw, th))
  }

  lemma FromArraysNext<V>(ops: Ops<V>, planar: Planar, tw: nat, th: nat, w: Window, band: nat, keep: Cell -> bool,
                          tiles: seq<Cell>, arrays: seq<Array<V>>, n: nat)
    requires band > 0 && |arrays| == |tiles| && n < |tiles|
    ensures FromArrays(ops, planar, tw, th, w, band, keep, tiles[..n + 1], arrays[..n + 1]) ==
              Scan(ops, Local(arrays[n], planar, Corner(tiles[n], tw, th), band - 1), keep,
                   FromArrays(ops, planar, tw, th, w, band, keep, tiles[..n], arrays[..n]), Clip(w, tiles[n], tw, th))
  {
    assert tiles[..n + 1][..n] == tiles[..n] && arrays[..n + 1][..n] == arrays[..n];
  }

  /** An error on one tile is the error of the whole list. */
  lemma {:induction false} ErrorStays<V>(ops: Ops<V>, planar: Planar, tw: nat, th: nat, w: Window, band: nat,
                                         keep: Cell -> bool, tiles: seq<Cell>, arrays: seq<Array<V>>, n: nat)
    requires band > 0 && |arrays| == |tiles| && n <= |tiles|
    requires FromArrays(ops, planar, tw, th, w, band, keep, tiles[..n], arrays[..n]).Err?
    ensures FromArrays(ops, planar, tw, th, w, band, keep, tiles, arrays) ==
              FromArrays(ops, planar, tw, th, w, band, keep, tiles[..n], arrays[..n])
    decreases |tiles| - n
  {
    if n == |tiles| {
      assert tiles[..n] == tiles && arrays[..n] == arrays;
    } else {
      var r := FromArrays(ops, planar, tw, th, w, band, keep, tiles[..n], arrays[..n]);
      FromArraysNext(ops, planar, tw, th, w, band, keep, tiles, arrays, n);
      ScanFromErr(ops, Local(arrays[n], planar, Corner(tiles[n], tw, th), band - 1), keep, r.error,
                  Clip(w, tiles[n], tw, th));
      ErrorStays(ops, planar, tw, th, w, band, keep, tiles, arrays, n + 1);
    }
  }

  /** Tile after tile, from the arrays of all of them. */
  method AccumulateArrays<V>(ops: Ops<V>, planar: Planar, tw: nat, th: nat, w: Window, band: nat, keep: Cell -> bool,
                             tiles: seq<Cell>, arrays: seq<Array<V>>) returns (r: Scanned<V>)
    requires Ordered(w) && band > 0 && tw > 0 && th > 0 && tiles == WindowTiles(w, tw, th) && |arrays| == |tiles|
    ensures r == FromArrays(ops, planar, tw, th, w, band, keep, tiles, arrays)
  {
    var acc := Empty(ops);
    for i := 0 to |tiles|
      invariant Ok(acc) == FromArrays(ops, planar, tw, th, w, band, keep, tiles[..i], arrays[..i])
    {
      TileTouches(w, tw, th, tiles[i]);
      var after := AccumulateTile(ops, acc, arrays[i], planar, w, Corner(tiles[i], tw, th), tw, th, band, keep);
      FromArraysNext(ops, planar, tw, th, w, band, keep, tiles, arrays, i);
      if after.Err? {
        ErrorStays(ops, planar, tw, th, w, band, keep, tiles, arrays, i + 1);
        return after;
      }
      acc := after.value;
    }
    assert tiles[..|tiles|] == tiles && arrays[..|tiles|] == arrays;
    r := Ok(acc);
  }

  /** On its own part of the window, scanning the array of a tile is scanning the stored raster. */
  lemma TileScanIsStored<V>(ops: Ops<V>, start: Scanned<V>, cog: Cog<V>, level: nat, t: Cell, arr: Array<V>, w: Window,
                            band: nat, keep: Cell -> bool)
    requires WellFormed(cog) && level < |cog.levels| && band > 0 && cog.source(KeyAt(cog, level, t)) == Tile(arr)
    ensures var tw, th := cog.levels[level].tileWidth, cog.levels[level].tileHeight;
            Scan(ops, Local(arr, cog.planar(level), Corner(t, tw, th), band - 1), keep, start, Clip(w, t, tw, th)) ==
              Scan(ops, Stored(cog, level, band), keep, start, Clip(w, t, tw, th))
  {
    var tw, th := cog.levels[level].tileWidth, cog.levels[level].tileHeight;
    var px := Local(arr, cog.planar(level), Corner(t, tw, th), band - 1);
    LocalIsStored(cog, level, band, w, t, arr, px, Clip(w, t, tw, th));
    ScanSamePixels(ops, px, Stored(cog, level, band), keep, start, Clip(w, t, tw, th));
  }

  lemma {:induction false} FromArraysIsScan<V>(ops: Ops<V>, cog: Cog<V>, level: nat, w: Window, band: nat,
                                               keep: Cell -> bool, tiles: seq<Cell>, arrays: seq<Array<V>>, n: nat)
    requires WellFormed(cog) && level < |cog.levels| && band > 0 && |arrays| == |tiles| && n <= |tiles|
    requires forall j :: 0 <= j < |tiles| ==> cog.source(KeyAt(cog, level, tiles[j])) == Tile(arrays[j])
    ensures var tw, th := cog.levels[level].tileWidth, cog.levels[level].tileHeight;
            FromArrays(ops, cog.planar(level), tw, th, w, band, keep, tiles[..n], arrays[..n]) ==
              Scan(ops, Stored(cog, level, band), keep, Ok(Empty(ops)), Visit(w, tiles[..n], tw, th))
  {
    if n > 0 {
      var tw, th := cog.levels[level].tileWidth, cog.levels[level].tileHeight;
      FromArraysIsScan(ops, cog, level, w, band, keep, tiles, arrays, n - 1);
      OneMoreTile(ops, cog, level, w, band, keep, tiles, arrays, n - 1,
                  FromArrays(ops, cog.planar(level), tw, th, w, band, keep, tiles[..n - 1], arrays[..n - 1]));
    }
  }

  lemma OneMoreTile<V>(ops: Ops<V>, cog: Cog<V>, level: nat, w: Window, band: nat, keep: Cell -> bool,
                       tiles: seq<Cell>, arrays: seq<Array<V>>, n: nat, sofar: Scanned<V>)
    requires WellFormed(cog) && level < |cog.levels| && band > 0 && |arrays| == |tiles| && n < |tiles|
    requires cog.source(KeyAt(cog, level, tiles[n])) == Tile(arrays[n])
    requires var tw, th := cog.levels[level].tileWidth, cog.levels[level].tileHeight;
             && sofar == FromArrays(ops, cog.planar(level), tw, th, w, band, keep, tiles[..n], arrays[..n])
             && sofar == Scan(ops, Stored(cog, level, band), keep, Ok(Empty(ops)), Visit(w, tiles[..n], tw, th))
    ensures var tw, th := cog.levels[level].tileWidth, cog.levels[level].tileHeight;
            FromArrays(ops, cog.planar(level), tw, th, w, band, keep, tiles[..n + 1], arrays[..n + 1]) ==
              Scan(ops, Stored(cog, level, band), keep, Ok(Empty(ops)), Visit(w, tiles[..n + 1], tw, th))
  {
    var tw, th, px := cog.levels[level].tileWidth, cog.levels[level].tileHeight, Stored(cog, level, band);
    FromArraysNext(ops, cog.planar(level), tw, th, w, band, keep, tiles, arrays, n);
    VisitNext(w, tiles, tw, th, n);
    ScanConcat(ops, px, keep, Ok(Empty(ops)), Visit(w, tiles[..n], tw, th), Clip(w, tiles[n], tw, th));
    TileScanIsStored(ops, sofar, cog, level, tiles[n], arrays[n], w, band, keep);
  }

  /** From the raster's own arrays a window comes to its statistics. */
  lemma FromArraysIsWindowStats<V>(ops: Ops<V>, cog: Cog<V>, level: nat, w: Window, band: nat, keep: Cell -> bool,
                                   tiles: seq<Cell>, arrays: seq<Array<V>>)
    requires WellFormed(cog) && level < |cog.levels| && band > 0
    requires tiles == WindowTiles(w, cog.levels[level].tileWidth, cog.levels[level].tileHeight)
    requires |arrays| == |tiles|
    requires forall j :: 0 <= j < |tiles| ==> cog.source(KeyAt(cog, level, tiles[j])) == Tile(arrays[j])
    ensures FromArrays(ops, cog.planar(level), cog.levels[level].tileWidth, cog.levels[level].tileHeight, w, band, keep,
                       tiles, arrays) == WindowStats(ops, cog, level, w, band, keep)
  {
    FromArraysIsScan(ops, cog, level, w, band, keep, tiles, arrays, |tiles|);
    assert tiles[..|tiles|] == tiles && arrays[..|tiles|] == arrays;
    forall j | 0 <= j < |tiles| ensures cog.source(TileKeys(cog, level, tiles)[j]).Tile? {
      assert cog.source(KeyAt(cog, level, tiles[j])) == Tile(arrays[j]);
    }
  }

  lemma FetchedArrays<V>(cog: Cog<V>, level: nat, tiles: seq<Cell>, arrays: seq<Array<V>>)
    requires FetchAll(cog.source, TileKeys(cog, level, tiles)) == Ok(arrays)
    ensures |arrays| == |tiles|
    ensures forall j :: 0 <= j < |tiles| ==> cog.source(KeyAt(cog, level, tiles[j])) == Tile(arrays[j])
  {
    forall j | 0 <= j < |tiles| ensures cog.source(KeyAt(cog, level, tiles[j])) == Tile(arrays[j]) {
      assert cog.source(TileKeys(cog, level, tiles)[j]).Tile?;
    }
  }

  /** One fetch of all the window's tiles, then tile after tile. A level the file lacks gives the empty statistics. */
  method AccumulateWindow<V>(ops: Ops<V>, cog: Cog<V>, level: nat, w: Window, band: nat,
                             keep: Cell -> bool) returns (r: Scanned<V>)
    requires WellFormed(cog) && Ordered(w) && band > 0
    ensures level >= |cog.levels| ==> r == Ok(Empty(ops))
    ensures level < |cog.levels| ==> r == WindowStats(ops, cog, level, w, band, keep)
  {
    if level >= |cog.levels| {
      return Ok(Empty(ops));
    }
    var tw, th := cog.levels[level].tileWidth, cog.levels[level].tileHeight;
    var tiles := TilesOf(w, tw, th);
    var fetched := FetchUncached(cog.source, TileKeys(cog, level, tiles));
    if fetched.Err? {
      return Err(fetched.error);
    }
    FetchedArrays(cog, level, tiles, fetched.value);
    FromArraysIsWindowStats(ops, cog, level, w, band, keep, tiles, fetched.value);
    r := AccumulateArrays(ops, cog.planar(level), tw, th, w, band, keep, tiles, fetched.value);
  }

  // ---- what a window comes to ---------------------------------------------------------------

  /** Two ways of naming the same pixels agree: in outcome, count, min and max for any values, in all with exact
      sums. */
  lemma WindowIsAnyScan<V(!new)>(ops: Ops<V>, cog: Cog<V>, level: nat, w: Window, band: nat, keep: Cell -> bool,
                          list: seq<Cell>, wanted: Cell -> bool)
    requires WellFormed(cog) && level < |cog.levels| && band > 0 && ExtremaCommute(ops)
    requires forall c :: multiset(Kept(list, wanted))[c] == One(Covers(w, c) && keep(c))
    ensures var tiles := WindowTiles(w, cog.levels[level].tileWidth, cog.levels[level].tileHeight);
            var r := WindowStats(ops, cog, level, w, band, keep);
            var naive := Scan(ops, Stored(cog, level, band), wanted, Ok(Empty(ops)), list);
            if AllDecode(cog.source, TileKeys(cog, level, tiles))
            then SameButSum(r, naive) && (SumCommutes(ops) ==> r == naive)
            else r == Err(Tiff)
  {
    var (tw, th) := (cog.levels[level].tileWidth, cog.levels[level].tileHeight);
    var visited, px := Visit(w, WindowTiles(w, tw, th), tw, th), Stored(cog, level, band);
    ScanKept(ops, px, keep, Ok(Empty(ops)), visited);
    ScanKept(ops, px, wanted, Ok(Empty(ops)), list);
    TilesPartitionWindow(w, tw, th);
    forall c ensures multiset(Kept(visited, keep))[c] == multiset(Kept(list, wanted))[c] {
      KeptCount(visited, keep, c);
      assert multiset(visited)[c] == multiset(Pixels(w))[c];
    }
    assert multiset(Kept(visited, keep)) == multiset(Kept(list, wanted));
    ScanOrder(ops, px, All(), Ok(Empty(ops)), Kept(visited, keep), Kept(list, wanted));
  }

  /** A tile a window touches has a pixel in the window. */
  lemma WindowTilePixel(w: Window, tw: nat, th: nat, t: Cell) returns (c: Cell)
    requires Ordered(w) && tw > 0 && th > 0 && t in WindowTiles(w, tw, th)
    ensures Covers(w, c) && TileOf(c, tw, th) == t
  {
    TileTouches(w, tw, th, t);
    c := Cell(MaxInt(w.colMin, t.x * tw), MaxInt(w.rowMin, t.y * th));
    DivIsTile(c.x, t.x, tw);
    DivIsTile(c.y, t.y, th);
  }

  /** A tile that does not decode leaves a pixel of the window without a value. */
  lemma UndecodedTileHidesPixel<V>(cog: Cog<V>, level: nat, w: Window, band: nat) returns (c: Cell)
    requires WellFormed(cog) && level < |cog.levels| && band > 0 && Ordered(w)
    requires var tiles := WindowTiles(w, cog.levels[level].tileWidth, cog.levels[level].tileHeight);
             !AllDecode(cog.source, TileKeys(cog, level, tiles))
    ensures Covers(w, c) && PixelAt(cog, level, band, c).None?
  {
    var (tw, th) := (cog.levels[level].tileWidth, cog.levels[level].tileHeight);
    var tiles := WindowTiles(w, tw, th);
    var j :| 0 <= j < |tiles| && !cog.source(TileKeys(cog, level, tiles)[j]).Tile?;
    c := WindowTilePixel(w, tw, th, tiles[j]);
  }
}
