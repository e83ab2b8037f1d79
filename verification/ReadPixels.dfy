/** Reading points: the pixel under each world coordinate, each tile fetched and decoded once. */
module ReadPixels {
  import opened Wrappers
  import opened Arrays
  import opened TileSource
  import opened Zone
  import opened Windows
  import opened Grids
  import opened CellOrder
  import opened Raster
  import opened WindowScan
  import opened Zonal
  import opened Batch
  import opened BandWindow

  /** The pixel of the base level under p, None outside the image. */
  function PixelUnder(g: Georef, l: Level, p: Point): (c: Option<Cell>)
    requires NorthUp(g)
    ensures c.Some? ==> InImage(l, c.value.x, c.value.y)
  {
    var (col1, row1) := WorldToRaster(g, p);
    if col1 >= 1 && row1 >= 1 && col1 <= l.width && row1 <= l.height then Some(Cell(col1 - 1, row1 - 1)) else None
  }

  /** A point reads the pixel that has it, if the image has that pixel. */
  lemma PixelUnderHasPoint(g: Georef, l: Level, p: Point, c: Cell)
    requires NorthUp(g)
    ensures PixelUnder(g, l, p) == Some(c) <==> InImage(l, c.x, c.y) && PixelHas(g, c.x + 1, c.y + 1, p)
  {
    RasterPixelHasPoint(g, p, c.x + 1, c.y + 1);
  }

  function PointValue<V>(ops: Ops<V>, px: Cell -> Option<V>, c: Option<Cell>): Option<V> {
    if c.Some? then ValueOf(ops, px(c.value)) else None
  }

  ghost predicate AllPresent<V>(px: Cell -> Option<V>, at: seq<Option<Cell>>) {
    forall i :: 0 <= i < |at| && at[i].Some? ==> px(at[i].value).Some?
  }

  /** The values at the pixels of `at`, position by position; an error if one of them is in no decoded tile. */
  ghost function ValuesAt<V>(ops: Ops<V>, px: Cell -> Option<V>, at: seq<Option<Cell>>): Result<seq<Option<V>>,
                             MetaError> {
    if AllPresent(px, at) then Ok(seq(|at|, i requires 0 <= i < |at| => PointValue(ops, px, at[i]))) else Err(Tiff)
  }

  function AllUnder(g: Georef, l: Level, points: seq<Point>): (at: seq<Option<Cell>>)
    requires NorthUp(g)
    ensures |at| == |points|
  {
    seq(|points|, i requires 0 <= i < |points| => PixelUnder(g, l, points[i]))
  }

  /** What read_pixels must return. */
  ghost function ReadOf<V>(ops: Ops<V>, cog: Cog<V>, points: seq<Point>, band: nat): Result<seq<Option<V>>, MetaError>
    requires WellFormed(cog)
  {
    if cog.georef.None? then Err(NotGeoreferenced)
    else if cog.levels == [] || !HasBand(cog, band) then Ok(seq(|points|, i => None))
    else ValuesAt(ops, Stored(cog, 0, band), AllUnder(cog.georef.value, cog.levels[0], points))
  }

  // ---- sort and dedup -----------------------------------------------------------------------

  ghost predicate NonDecreasing(s: seq<Cell>) {
    forall i, j :: 0 <= i < j < |s| ==> s[i] == s[j] || Before(s[i], s[j])
  }

  method InsertInOrder(s: seq<Cell>, c: Cell) returns (r: seq<Cell>)
    requires NonDecreasing(s)
    ensures NonDecreasing(r) && multiset(r) == multiset(s) + multiset{c}
  {
    var k := 0;
    while k < |s| && !Before(c, s[k])
      invariant k <= |s|
      invariant forall j :: 0 <= j < k ==> !Before(c, s[j])
    {
      k := k + 1;
    }
    r := s[..k] + [c] + s[k..];
    InsertedInOrder(s, c, k);
    assert s == s[..k] + s[k..];
  }

  lemma InsertedInOrder(s: seq<Cell>, c: Cell, k: nat)
    requires NonDecreasing(s) && k <= |s| && (k < |s| ==> Before(c, s[k]))
    requires forall j :: 0 <= j < k ==> !Before(c, s[j])
    ensures NonDecreasing(s[..k] + [c] + s[k..])
  {
    var r := s[..k] + [c] + s[k..];
    forall i, j | 0 <= i < j < |r| ensures r[i] == r[j] || Before(r[i], r[j]) {
      var x, y := if i < k then i else i - 1, if j < k then j else j - 1;
      assert i != k ==> r[i] == s[x];
      assert j != k ==> r[j] == s[y];
    }
  }

  /** A sort: same elements, in order. */
  method Sort(s: seq<Cell>) returns (r: seq<Cell>)
    ensures NonDecreasing(r) && multiset(r) == multiset(s)
  {
    r := [];
    for i := 0 to |s|
      invariant NonDecreasing(r) && multiset(r) == multiset(s[..i])
    {
      assert s[..i + 1] == s[..i] + [s[i]];
      r := InsertInOrder(r, s[i]);
    }
    assert s[..|s|] == s;
  }

  /** Consecutive repeats dropped. */
  method Dedup(s: seq<Cell>) returns (r: seq<Cell>)
    requires NonDecreasing(s)
    ensures Increasing(r)
    ensures forall c :: c in r <==> c in s
  {
    r := [];
    for i := 0 to |s|
      invariant Increasing(r)
      invariant i == 0 <==> r == []
      invariant i > 0 ==> r[|r| - 1] == s[i - 1]
      invariant forall c :: c in r <==> c in s[..i]
    {
      ghost var before := r;
      assert s[..i + 1] == s[..i] + [s[i]];
      assert forall j :: 0 <= j < |r| ==> r[j] in s[..i];
      if i == 0 || r[|r| - 1] != s[i] {
        r := r + [s[i]];
      }
    }
    assert s[..|s|] == s;
  }

  // ---- reading ------------------------------------------------------------------------------

  method PixelsUnder(g: Georef, l: Level, points: seq<Point>) returns (at: seq<Option<Cell>>)
    requires NorthUp(g)
    ensures at == AllUnder(g, l, points)
  {
    at := [];
    for i := 0 to |points|
      invariant |at| == i
      invariant forall k :: 0 <= k < i ==> at[k] == PixelUnder(g, l, points[k])
    {
      at := at + [PixelUnder(g, l, points[i])];
    }
  }

  /** The distinct tiles of the points, in (x, y) order. */
  method TilesUnder(at: seq<Option<Cell>>, tw: nat, th: nat) returns (tiles: seq<Cell>)
    requires tw > 0 && th > 0
    ensures Increasing(tiles)
    ensures forall i :: 0 <= i < |at| && at[i].Some? ==> TileOf(at[i].value, tw, th) in tiles
    ensures forall t :: t in tiles ==> exists i :: 0 <= i < |at| && at[i].Some? && TileOf(at[i].value, tw, th) == t
  {
    var all := [];
    for i := 0 to |at|
      invariant forall k :: 0 <= k < i && at[k].Some? ==> TileOf(at[k].value, tw, th) in all
      invariant forall t :: t in all ==> exists k :: 0 <= k < i && at[k].Some? && TileOf(at[k].value, tw, th) == t
    {
      if at[i].Some? {
        all := all + [TileOf(at[i].value, tw, th)];
      }
    }
    var sorted := Sort(all);
    SameMembers(sorted, all);
    tiles := Dedup(sorted);
  }

  lemma SameMembers(s: seq<Cell>, t: seq<Cell>)
    requires multiset(s) == multiset(t)
    ensures forall c :: c in s <==> c in t
  {
    forall c ensures c in s <==> c in t {
      assert c in s <==> c in multiset(s);
      assert c in t <==> c in multiset(t);
    }
  }

  /** Sampling, position by position. */
  method SampleAll<V>(ops: Ops<V>, cog: Cog<V>, band: nat, at: seq<Option<Cell>>, decoded: map<Cell, Array<V>>)
      returns (r: Result<seq<Option<V>>, MetaError>)
    requires WellFormed(cog) && cog.levels != [] && band > 0
    requires forall i :: 0 <= i < |at| && at[i].Some? ==>
              Decoded(cog, 0, decoded, TileOf(at[i].value, cog.levels[0].tileWidth, cog.levels[0].tileHeight))
    ensures r == ValuesAt(ops, Stored(cog, 0, band), at)
  {
    var l0 := cog.levels[0];
    ghost var px := Stored(cog, 0, band);
    var out: seq<Option<V>> := [];
    for i := 0 to |at|
      invariant |out| == i
      invariant forall k :: 0 <= k < i ==> out[k] == PointValue(ops, px, at[k])
      invariant AllPresent(px, at[..i])
    {
      assert at[..i + 1] == at[..i] + [at[i]];
      if at[i].None? {
        out := out + [None];
        continue;
      }
      var c := at[i].value;
      var t := TileOf(c, l0.tileWidth, l0.tileHeight);
      assert Decoded(cog, 0, decoded, t);
      var value := SampleArray(decoded[t], cog.planar(0), c.y % l0.tileHeight, c.x % l0.tileWidth, band - 1);
      assert value == px(c);
      if value.None? {
        return Err(Tiff);
      }
      out := out + [ApplyNodata(ops, value.value)];
    }
    assert at[..|at|] == at;
    assert out == ValuesAt(ops, px, at).value;
    r := Ok(out);
  }

  method ReadPoints<V>(ops: Ops<V>, cog: Cog<V>, points: seq<Point>,
                       band: nat) returns (r: Result<seq<Option<V>>, MetaError>)
    requires WellFormed(cog)
    ensures r == ReadOf(ops, cog, points, band)
  {
    if cog.georef.None? {
      return Err(NotGeoreferenced);
    }
    if cog.levels == [] || band == 0 || band > cog.numBands {
      return Ok(seq(|points|, i => None));
    }
    var l0 := cog.levels[0];
    var at := PixelsUnder(cog.georef.value, l0, points);
    var tiles := TilesUnder(at, l0.tileWidth, l0.tileHeight);
    var arrays := FetchUncached(cog.source, TileKeys(cog, 0, tiles));
    if arrays.Err? {
      UndecodedPointTile(cog, band, at, tiles);
      return Err(Tiff);
    }
    var decoded := ZipTiles(tiles, arrays.value);
    ZippedIsDecoded(cog, 0, tiles, arrays.value, decoded);
    r := SampleAll(ops, cog, band, at, decoded);
  }

  lemma UndecodedPointTile<V>(cog: Cog<V>, band: nat, at: seq<Option<Cell>>, tiles: seq<Cell>)
    requires WellFormed(cog) && cog.levels != [] && band > 0
    requires forall t :: t in tiles ==>
              exists i :: 0 <= i < |at| && at[i].Some? &&
                            TileOf(at[i].value, cog.levels[0].tileWidth, cog.levels[0].tileHeight) == t
    requires !AllDecode(cog.source, TileKeys(cog, 0, tiles))
    ensures !AllPresent(Stored(cog, 0, band), at)
  {
    var j :| 0 <= j < |tiles| && !cog.source(TileKeys(cog, 0, tiles)[j]).Tile?;
    assert tiles[j] in tiles;
    var i :| 0 <= i < |at| && at[i].Some? &&
             TileOf(at[i].value, cog.levels[0].tileWidth, cog.levels[0].tileHeight) == tiles[j];
    assert Stored(cog, 0, band)(at[i].value).None?;
  }

  // ---- points and windows -------------------------------------------------------------------

  /** The centres of a window's pixels, row by row. */
  function Centers(g: Georef, w: Window): (points: seq<Point>)
    ensures |points| == |Pixels(w)|
  {
    seq(|Pixels(w)|, i requires 0 <= i < |Pixels(w)| => Center(g, Pixels(w)[i].x, Pixels(w)[i].y))
  }

  /** A pixel's centre is under that pixel. */
  lemma CenterIsUnder(g: Georef, l: Level, c: Cell)
    requires NorthUp(g) && InImage(l, c.x, c.y)
    ensures PixelUnder(g, l, Center(g, c.x, c.y)) == Some(c)
  {
    CenterToRaster(g, c.x, c.y);
  }

  /** Reading the centres of a box's window gives the elements of its band window, position by position, and errs
      with it. */
  lemma CentersReadAsBand<V>(ops: Ops<V>, cog: Cog<V>, b: Bbox, band: nat, w: Window)
    requires WellFormed(cog) && Located(cog, 0) && HasBand(cog, band) && ValidBox(b)
    requires CenterWindow(cog.georef.value, cog.levels[0], b) == Some(w)
    ensures ToBand(ReadOf(ops, cog, Centers(cog.georef.value, w), band)) == BandOf(ops, cog, Some(b), band)
  {
    var g, l, px, pixels := cog.georef.value, cog.levels[0], Stored(cog, 0, band), Pixels(w);
    var points := Centers(g, w);
    var at := AllUnder(g, l, points);
    forall i | 0 <= i < |pixels| ensures at[i] == Some(pixels[i]) && Covers(w, pixels[i]) {
      SlotPixel(w, i);
      CenterIsUnder(g, l, pixels[i]);
    }
    if AllStored(IsStored(cog, band), w) {
      forall i | 0 <= i < |at| && at[i].Some? ensures px(at[i].value).Some? {
        assert IsStored(cog, band)(pixels[i]);
      }
      assert seq(|at|, i requires 0 <= i < |at| => PointValue(ops, px, at[i])) == Values(ops, px, pixels);
    } else {
      var c :| Covers(w, c) && !IsStored(cog, band)(c);
      SlotInRange(w, c);
      PixelsSize(w);
      var k := Slot(w, c);
      SlotPixel(w, k);
      SlotInjective(w, c, pixels[k]);
      assert at[k].Some? && px(at[k].value).None?;
    }
  }
}
