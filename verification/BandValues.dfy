/** Band windows and point reads said pixel by pixel: which value stands at which place, and each way of having none. */
module BandValues {
  import opened Wrappers
  import opened Arrays
  import opened TileStore
  import opened TileSource
  import opened Zone
  import opened Windows
  import opened Grids
  import opened Raster
  import opened WindowScan
  import opened Zonal
  import opened BandWindow
  import opened BandWindowLaws
  import opened ReadPixels

  /** The value of a pixel as callers see it: nothing for nodata. */
  function Shown<V>(ops: Ops<V>, v: V): Option<V> {
    if ops.isNodata(v) then None else Some(v)
  }

  /** `values` is the window row by row: pixel (col, row) stands at (row - rowMin) * width + (col - colMin), blank
      unless kept. */
  ghost predicate IsRowMajor<V>(ops: Ops<V>, px: Cell -> Option<V>, keep: Cell -> bool, w: Window,
                                values: seq<Option<V>>) {
    var width, height := w.colMax - w.colMin + 1, w.rowMax - w.rowMin + 1;
    && |values| == width * height
    && forall c :: Covers(w, c) ==> PlacedAt(ops, px, keep, values, (c.y - w.rowMin) * width + (c.x - w.colMin), c)
  }

  ghost predicate PlacedAt<V>(ops: Ops<V>, px: Cell -> Option<V>, keep: Cell -> bool, values: seq<Option<V>>, k: int,
                              c: Cell) {
    0 <= k < |values| && px(c).Some? && values[k] == if keep(c) then Shown(ops, px(c).value) else None
  }

  /** What the pixels named by `wanted` read as: nothing if there are none, an error if one has no value, else the
      window of exactly these pixels, row by row, those kept shown. */
  ghost predicate ReadsAs<V>(ops: Ops<V>, px: Cell -> Option<V>, wanted: Cell -> bool, keep: Cell -> bool,
                             r: BandResult<V>) {
    if forall c :: !wanted(c) then r == Ok(Some([]))
    else if exists c :: wanted(c) && px(c).None? then r == Err(Tiff)
    else
      && r.Ok? && r.value.Some?
      && exists w :: Ordered(w) && (forall c :: Covers(w, c) <==> wanted(c)) &&
                     IsRowMajor(ops, px, keep, w, r.value.value)
  }

  lemma SlotOf(w: Window, c: Cell)
    requires Ordered(w) && Covers(w, c)
    ensures 0 <= Slot(w, c) < |Pixels(w)| && Pixels(w)[Slot(w, c)] == c
  {
    PixelsSize(w);
    SlotInRange(w, c);
    SlotPixel(w, Slot(w, c));
    SlotInjective(w, c, Pixels(w)[Slot(w, c)]);
  }

  lemma RowMajor<V>(ops: Ops<V>, px: Cell -> Option<V>, keep: Cell -> bool, w: Window, values: seq<Option<V>>)
    requires Ordered(w) && MaskedBy(ops, px, keep, Pixels(w), values)
    ensures IsRowMajor(ops, px, keep, w, values)
  {
    PixelsSize(w);
    forall c | Covers(w, c) ensures PlacedAt(ops, px, keep, values, Slot(w, c), c) {
      SlotOf(w, c);
    }
  }

  lemma WindowReadsAs<V>(ops: Ops<V>, cog: Cog<V>, band: nat, w: Window, wanted: Cell -> bool, keep: Cell -> bool,
                         values: seq<Option<V>>, r: BandResult<V>)
    requires WellFormed(cog) && cog.levels != [] && band > 0 && Ordered(w)
    requires forall c :: Covers(w, c) <==> wanted(c)
    requires AllStored(IsStored(cog, band), w) ==>
               r == Ok(Some(values)) && MaskedBy(ops, Stored(cog, 0, band), keep, Pixels(w), values)
    requires !AllStored(IsStored(cog, band), w) ==> r == Err(Tiff)
    ensures ReadsAs(ops, Stored(cog, 0, band), wanted, keep, r)
  {
    var px := Stored(cog, 0, band);
    assert Covers(w, Cell(w.colMin, w.rowMin));
    if AllStored(IsStored(cog, band), w) {
      RowMajor(ops, px, keep, w, values);
      forall c | wanted(c) ensures px(c).Some? {
        assert IsStored(cog, band)(c);
      }
    } else {
      var c :| Covers(w, c) && !IsStored(cog, band)(c);
      assert px(c).None?;
    }
  }

  /** The pixels a band window is to hold: those of the image, with a box those whose centre is in it. */
  function BandWanted<V>(cog: Cog<V>, b: Option<Bbox>): Cell -> bool
    requires cog.levels != [] && (b.Some? ==> cog.georef.Some?)
  {
    (c: Cell) =>
      InImage(cog.levels[0], c.x, c.y) && (b.Some? ==> InBox(Center(cog.georef.value, c.x, c.y), b.value))
  }

  /** Band windows: the checks in their order, and then the wanted pixels, all of them shown. */
  lemma BandReadsAs<V>(ops: Ops<V>, cog: Cog<V>, b: Option<Bbox>, band: nat)
    requires WellFormed(cog)
    ensures var r := BandOf(ops, cog, b, band);
            if cog.levels == [] || band == 0 || band > cog.numBands then r == Ok(None)
            else if cog.levels[0].width == 0 || cog.levels[0].height == 0 then r == Ok(Some([]))
            else if b.Some? && (b.value.xmin > b.value.xmax || b.value.ymin > b.value.ymax) then r == Err(InvalidFilter)
            else if b.Some? && cog.georef.None? then r == Err(NotGeoreferenced)
            else ReadsAs(ops, Stored(cog, 0, band), BandWanted(cog, b), All(), r)
  {
    if
      && cog.levels != [] && HasBand(cog, band) && cog.levels[0].width > 0 && cog.levels[0].height > 0
      && (b.Some? ==> ValidBox(b.value) && cog.georef.Some?)
    {
      var l, wanted := cog.levels[0], BandWanted(cog, b);
      var w := if b.None? then Some(WholeBand(l)) else CenterWindow(cog.georef.value, l, b.value);
      forall c ensures (w.Some? && Covers(w.value, c)) <==> wanted(c) {
        if b.Some? {
          CenterWindowExact(cog.georef.value, l, b.value, c.x, c.y);
        }
      }
      if w.Some? {
        var values := Values(ops, Stored(cog, 0, band), Pixels(w.value));
        if AllStored(IsStored(cog, band), w.value) {
          PixelsStored(cog, band, w.value);
        }
        WindowReadsAs(ops, cog, band, w.value, wanted, All(), values, BandOf(ops, cog, b, band));
      }
    }
  }

  /** Polygon band windows: nothing without a vertex, the checks in their order, and then the pixels whose centre is in
      the envelope, shown if the centre is in the zone. */
  lemma PolygonBandReadsAs<V>(ops: Ops<V>, cog: Cog<V>, z: Zone, band: nat)
    requires WellFormed(cog)
    ensures var r, env := PolygonBandOf(ops, cog, z, band), EnvelopeOf(z);
            var hasBand := 0 < band <= cog.numBands;
            if env.None? then r == Ok(if hasBand then Some([]) else None)
            else if cog.levels == [] || !hasBand then r == Ok(None)
            else if cog.levels[0].width == 0 || cog.levels[0].height == 0 then r == Ok(Some([]))
            else if cog.georef.None? then r == Err(NotGeoreferenced)
            else ReadsAs(ops, Stored(cog, 0, band), BandWanted(cog, env), CenterInside(cog, 0, z), r)
  {
    var env := EnvelopeOf(z);
    if
      && env.Some? && cog.levels != [] && HasBand(cog, band) && cog.levels[0].width > 0 && cog.levels[0].height > 0
      && cog.georef.Some?
    {
      var l, wanted := cog.levels[0], BandWanted(cog, env);
      var w := CenterWindow(cog.georef.value, l, env.value);
      forall c ensures (w.Some? && Covers(w.value, c)) <==> wanted(c) {
        CenterWindowExact(cog.georef.value, l, env.value, c.x, c.y);
      }
      if w.Some? {
        var px := Stored(cog, 0, band);
        var values := Masked(cog, z, Pixels(w.value), Values(ops, px, Pixels(w.value)));
        if AllStored(IsStored(cog, band), w.value) {
          PixelsStored(cog, band, w.value);
          assert MaskedBy(ops, px, CenterInside(cog, 0, z), Pixels(w.value), values);
        }
        WindowReadsAs(ops, cog, band, w.value, wanted, CenterInside(cog, 0, z), values,
                      PolygonBandOf(ops, cog, z, band));
      }
    }
  }

  /** What position i of a point read holds: the value of the image's pixel that has the point, nothing if there is none
      or it is nodata. */
  ghost predicate ReadsPoint<V>(ops: Ops<V>, cog: Cog<V>, band: nat, p: Point, value: Option<V>)
    requires WellFormed(cog) && Located(cog, 0) && band > 0
  {
    && (forall c :: HoldsPoint(cog, c, p) ==>
          Stored(cog, 0, band)(c).Some? && value == Shown(ops, Stored(cog, 0, band)(c).value))
    && ((forall c :: !HoldsPoint(cog, c, p)) ==> value == None)
  }

  /** Pixel c of the base level has point p. */
  ghost predicate HoldsPoint<V>(cog: Cog<V>, c: Cell, p: Point)
    requires Located(cog, 0)
  {
    InImage(cog.levels[0], c.x, c.y) && PixelHas(cog.georef.value, c.x + 1, c.y + 1, p)
  }

  lemma PointReadsAs<V>(ops: Ops<V>, cog: Cog<V>, band: nat, p: Point, at: Option<Cell>)
    requires WellFormed(cog) && Located(cog, 0) && band > 0
    requires at == PixelUnder(cog.georef.value, cog.levels[0], p)
    ensures forall c :: HoldsPoint(cog, c, p) <==> at == Some(c)
    ensures (at.Some? ==> Stored(cog, 0, band)(at.value).Some?) ==>
              ReadsPoint(ops, cog, band, p, PointValue(ops, Stored(cog, 0, band), at))
  {
    forall c ensures HoldsPoint(cog, c, p) <==> at == Some(c) {
      PixelUnderHasPoint(cog.georef.value, cog.levels[0], p, c);
    }
    if at.Some? {
      assert HoldsPoint(cog, at.value, p);
    }
  }

  /** Point reads: an error without a georeference, nothing anywhere without a level or the band; else an error iff the
      pixel of some point has no value, and position by position what the point's pixel holds. */
  lemma PointsReadAs<V>(ops: Ops<V>, cog: Cog<V>, points: seq<Point>, band: nat)
    requires WellFormed(cog)
    ensures var r := ReadOf(ops, cog, points, band);
            if cog.georef.None? then r == Err(NotGeoreferenced)
            else if cog.levels == [] || band == 0 || band > cog.numBands then
              r.Ok? && |r.value| == |points| && forall i :: 0 <= i < |points| ==> r.value[i] == None
            else if exists i, c :: 0 <= i < |points| && HoldsPoint(cog, c, points[i]) &&
                                   Stored(cog, 0, band)(c).None? then r == Err(Tiff)
            else
              && r.Ok? && |r.value| == |points|
              && forall i :: 0 <= i < |points| ==> ReadsPoint(ops, cog, band, points[i], r.value[i])
  {
    if cog.georef.Some? && cog.levels != [] && HasBand(cog, band) {
      var at, px := AllUnder(cog.georef.value, cog.levels[0], points), Stored(cog, 0, band);
      forall i | 0 <= i < |points|
        ensures forall c :: HoldsPoint(cog, c, points[i]) <==> at[i] == Some(c)
        ensures (at[i].Some? ==> px(at[i].value).Some?) ==>
                  ReadsPoint(ops, cog, band, points[i], PointValue(ops, px, at[i]))
      {
        PointReadsAs(ops, cog, band, points[i], at[i]);
      }
      if i, c :| 0 <= i < |points| && HoldsPoint(cog, c, points[i]) && px(c).None? {
        assert at[i] == Some(c);
      } else {
        forall i | 0 <= i < |at| && at[i].Some? ensures px(at[i].value).Some? {
          assert HoldsPoint(cog, at[i].value, points[i]);
        }
      }
    }
  }
}
