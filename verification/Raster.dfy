/** Open rasters, pixel values, and statistics accumulated over a list of pixels. */
module Raster {
  import opened Wrappers
  import opened Arrays
  import opened TileStore
  import opened TileSource
  import opened Zone
  import opened Windows
  import opened Grids

  /** Pixel arithmetic. Nothing is assumed of it unless a lemma says so. */
  datatype Ops<!V> = Ops(zero: V, add: (V, V) -> V, min: (V, V) -> V, max: (V, V) -> V, isNodata: V -> bool)

  datatype Stats<V> = Stats(count: nat, sum: V, min: Option<V>, max: Option<V>)

  type Scanned<V> = Result<Stats<V>, MetaError>

  /** An open raster: metadata, its reader id, and where its tiles come from. */
  datatype Cog<!V> = Cog(levels: seq<Level>, georef: Option<Georef>, numBands: nat,
                         reader: nat, planar: nat -> Planar, source: Source<V>)

  predicate WellFormed<V>(cog: Cog<V>) {
    && (cog.georef.Some? ==> NorthUp(cog.georef.value))
    && (forall l :: 0 <= l < |cog.levels| ==> cog.levels[l].tileWidth > 0 && cog.levels[l].tileHeight > 0)
  }

  function Empty<V>(ops: Ops<V>): Stats<V> {
    Stats(0, ops.zero, None, None)
  }

  /** nodata pixels carry no value. */
  function ApplyNodata<V>(ops: Ops<V>, v: V): Option<V> {
    if ops.isNodata(v) then None else Some(v)
  }

  function Pick<V>(f: (V, V) -> V, best: Option<V>, v: V): Option<V> {
    Some(if best.Some? then f(best.value, v) else v)
  }

  function AddValue<V>(ops: Ops<V>, s: Stats<V>, v: V): Stats<V> {
    Stats(s.count + 1, ops.add(s.sum, v), Pick(ops.min, s.min, v), Pick(ops.max, s.max, v))
  }

  /** One pixel of a scan: skipped unless kept, an error if the tile does not contain it, ignored if nodata. */
  function See<V>(ops: Ops<V>, px: Cell -> Option<V>, keep: Cell -> bool, r: Scanned<V>, c: Cell): Scanned<V> {
    if r.Err? || !keep(c) then r
    else if px(c).None? then Err(Tiff)
    else if ApplyNodata(ops, px(c).value).None? then r
    else Ok(AddValue(ops, r.value, px(c).value))
  }

  /** The first n pixels of `list` seen one after the other. */
  function ScanTo<V>(ops: Ops<V>, px: Cell -> Option<V>, keep: Cell -> bool, start: Scanned<V>, list: seq<Cell>,
                     n: nat): Scanned<V>
    requires n <= |list|
  {
    if n == 0 then start else See(ops, px, keep, ScanTo(ops, px, keep, start, list, n - 1), list[n - 1])
  }

  function Scan<V>(ops: Ops<V>, px: Cell -> Option<V>, keep: Cell -> bool, start: Scanned<V>,
                   list: seq<Cell>): Scanned<V> {
    ScanTo(ops, px, keep, start, list, |list|)
  }

  function KeyAt<V>(cog: Cog<V>, level: nat, t: Cell): Key {
    Key(cog.reader, level, t.x, t.y)
  }

  function TileKeys<V>(cog: Cog<V>, level: nat, tiles: seq<Cell>): (keys: seq<Key>)
    ensures |keys| == |tiles|
  {
    seq(|tiles|, j requires 0 <= j < |tiles| => KeyAt(cog, level, tiles[j]))
  }

  /** The stored value of image pixel c: its tile, decoded, read at its place in the tile. */
  function PixelAt<V>(cog: Cog<V>, level: nat, band: nat, c: Cell): Option<V>
    requires WellFormed(cog) && level < |cog.levels| && band > 0
  {
    var l := cog.levels[level];
    match cog.source(KeyAt(cog, level, TileOf(c, l.tileWidth, l.tileHeight)))
    case Tile(a) => SampleArray(a, cog.planar(level), c.y % l.tileHeight, c.x % l.tileWidth, band - 1)
    case _ => None
  }

  function Stored<V>(cog: Cog<V>, level: nat, band: nat): Cell -> Option<V>
    requires WellFormed(cog) && level < |cog.levels| && band > 0
  {
    (c: Cell) => PixelAt(cog, level, band, c)
  }

  // ---- laws of a scan -----------------------------------------------------------------------

  lemma {:induction false} ScanPrefix<V>(ops: Ops<V>, px: Cell -> Option<V>, keep: Cell -> bool, start: Scanned<V>,
                                         a: seq<Cell>, b: seq<Cell>, n: nat)
    requires n <= |a|
    ensures ScanTo(ops, px, keep, start, a + b, n) == ScanTo(ops, px, keep, start, a, n)
  {
    if n > 0 {
      ScanPrefix(ops, px, keep, start, a, b, n - 1);
    }
  }

  lemma ScanNext<V>(ops: Ops<V>, px: Cell -> Option<V>, keep: Cell -> bool, start: Scanned<V>, list: seq<Cell>, c: Cell)
    ensures Scan(ops, px, keep, start, list + [c]) == See(ops, px, keep, Scan(ops, px, keep, start, list), c)
  {
    ScanPrefix(ops, px, keep, start, list, [c], |list|);
  }

  /** The last pixel is seen last. */
  lemma ScanLast<V>(ops: Ops<V>, px: Cell -> Option<V>, keep: Cell -> bool, start: Scanned<V>, list: seq<Cell>)
    requires list != []
    ensures Scan(ops, px, keep, start, list) ==
              See(ops, px, keep, Scan(ops, px, keep, start, list[..|list| - 1]), list[|list| - 1])
  {
    assert list == list[..|list| - 1] + [list[|list| - 1]];
    ScanNext(ops, px, keep, start, list[..|list| - 1], list[|list| - 1]);
  }

  lemma {:induction false} ScanConcat<V>(ops: Ops<V>, px: Cell -> Option<V>, keep: Cell -> bool, start: Scanned<V>,
                                         a: seq<Cell>, b: seq<Cell>)
    ensures Scan(ops, px, keep, start, a + b) == Scan(ops, px, keep, Scan(ops, px, keep, start, a), b)
  {
    if b == [] {
      assert a + b == a;
    } else {
      var front := b[..|b| - 1];
      assert (a + b)[..|a + b| - 1] == a + front;
      ScanLast(ops, px, keep, start, a + b);
      ScanLast(ops, px, keep, Scan(ops, px, keep, start, a), b);
      ScanConcat(ops, px, keep, start, a, front);
    }
  }

  ghost predicate SameAt<V>(px: Cell -> Option<V>, px': Cell -> Option<V>, list: seq<Cell>) {
    forall i :: 0 <= i < |list| ==> px(list[i]) == px'(list[i])
  }

  lemma {:induction false} ScanSamePixels<V>(ops: Ops<V>, px: Cell -> Option<V>, px': Cell -> Option<V>,
                                             keep: Cell -> bool, start: Scanned<V>, list: seq<Cell>)
    requires SameAt(px, px', list)
    ensures Scan(ops, px, keep, start, list) == Scan(ops, px', keep, start, list)
  {
    if list != [] {
      ScanSamePixels(ops, px, px', keep, start, list[..|list| - 1]);
      ScanLast(ops, px, keep, start, list);
      ScanLast(ops, px', keep, start, list);
      assert px(list[|list| - 1]) == px'(list[|list| - 1]);
    }
  }

  function Kept(list: seq<Cell>, keep: Cell -> bool): seq<Cell> {
    if list == [] then []
    else
      var front := Kept(list[..|list| - 1], keep);
      if keep(list[|list| - 1]) then front + [list[|list| - 1]] else front
  }

  function All(): Cell -> bool {
    (c: Cell) => true
  }

  lemma {:induction false} ScanKept<V>(ops: Ops<V>, px: Cell -> Option<V>, keep: Cell -> bool, start: Scanned<V>,
                                       list: seq<Cell>)
    ensures Scan(ops, px, keep, start, list) == Scan(ops, px, All(), start, Kept(list, keep))
  {
    if list != [] {
      var front, c := list[..|list| - 1], list[|list| - 1];
      ScanKept(ops, px, keep, start, front);
      ScanLast(ops, px, keep, start, list);
      if keep(c) {
        ScanNext(ops, px, All(), start, Kept(front, keep), c);
      }
    }
  }

  lemma {:induction false} KeptCount(list: seq<Cell>, keep: Cell -> bool, c: Cell)
    ensures multiset(Kept(list, keep))[c] == if keep(c) then multiset(list)[c] else 0
  {
    if list != [] {
      var front, d := list[..|list| - 1], list[|list| - 1];
      assert list == front + [d];
      KeptCount(front, keep, c);
      AppendCount(front, d, c);
      AppendCount(Kept(front, keep), d, c);
    }
  }

  /** A scan errs exactly when a kept pixel is not in its tile. */
  lemma {:induction false} ScanErrs<V>(ops: Ops<V>, px: Cell -> Option<V>, keep: Cell -> bool, start: Scanned<V>,
                                       list: seq<Cell>)
    requires start.Ok?
    ensures Scan(ops, px, keep, start, list).Err? ==> Scan(ops, px, keep, start, list) == Err(Tiff)
    ensures Scan(ops, px, keep, start, list).Err? <==> exists i :: 0 <= i < |list| && keep(list[i]) && px(list[i]).None?
  {
    if list != [] {
      var front := list[..|list| - 1];
      ScanErrs(ops, px, keep, start, front);
      ScanLast(ops, px, keep, start, list);
      if Scan(ops, px, keep, start, front).Err? {
        var i :| 0 <= i < |front| && keep(front[i]) && px(front[i]).None?;
        assert keep(list[i]) && px(list[i]).None?;
      } else {
        assert forall i :: 0 <= i < |front| ==> front[i] == list[i];
      }
    }
  }

  // ---- order independence -------------------------------------------------------------------

  /** min and max can be taken in any order. */
  ghost predicate ExtremaCommute<V(!new)>(ops: Ops<V>) {
    && (forall a, b :: ops.min(a, b) == ops.min(b, a) && ops.max(a, b) == ops.max(b, a))
    && (forall s, a, b :: ops.min(ops.min(s, a), b) == ops.min(ops.min(s, b), a))
    && (forall s, a, b :: ops.max(ops.max(s, a), b) == ops.max(ops.max(s, b), a))
  }

  /** Addition is exact: terms can be added in any order. */
  ghost predicate SumCommutes<V(!new)>(ops: Ops<V>) {
    forall s, a, b :: ops.add(ops.add(s, a), b) == ops.add(ops.add(s, b), a)
  }

  lemma SeeCommutes<V(!new)>(ops: Ops<V>, px: Cell -> Option<V>, keep: Cell -> bool, r: Scanned<V>, c: Cell, d: Cell)
    requires ExtremaCommute(ops) && SumCommutes(ops)
    ensures See(ops, px, keep, See(ops, px, keep, r, c), d) == See(ops, px, keep, See(ops, px, keep, r, d), c)
  {
  }

  /** A pixel in the middle may be seen last. */
  lemma {:induction false} SeeLater<V(!new)>(ops: Ops<V>, px: Cell -> Option<V>, keep: Cell -> bool,
                                      start: Scanned<V>, c: Cell, list: seq<Cell>)
    requires ExtremaCommute(ops) && SumCommutes(ops)
    ensures Scan(ops, px, keep, See(ops, px, keep, start, c), list) ==
              See(ops, px, keep, Scan(ops, px, keep, start, list), c)
  {
    if list != [] {
      var front, d := list[..|list| - 1], list[|list| - 1];
      SeeLater(ops, px, keep, start, c, front);
      ScanLast(ops, px, keep, See(ops, px, keep, start, c), list);
      ScanLast(ops, px, keep, start, list);
      SeeCommutes(ops, px, keep, Scan(ops, px, keep, start, front), c, d);
    }
  }

  /** Of two lists with the same cells, the second has the last cell of the first somewhere. */
  lemma TakeOut(front: seq<Cell>, c: Cell, b: seq<Cell>) returns (left: seq<Cell>, right: seq<Cell>)
    requires multiset(front + [c]) == multiset(b)
    ensures b == left + [c] + right && multiset(front) == multiset(left + right)
  {
    assert c in multiset(b);
    var i :| 0 <= i < |b| && b[i] == c;
    left, right := b[..i], b[i + 1..];
    assert b == left + [c] + right;
    assert multiset(left + right) == multiset(b) - multiset{c};
    assert multiset(front) == multiset(front + [c]) - multiset{c};
  }

  /** A pixel seen in the middle of a list may as well be seen last. */
  lemma SeeLast<V(!new)>(ops: Ops<V>, px: Cell -> Option<V>, keep: Cell -> bool, start: Scanned<V>,
                         left: seq<Cell>, c: Cell, right: seq<Cell>)
    requires ExtremaCommute(ops) && SumCommutes(ops)
    ensures Scan(ops, px, keep, start, left + [c] + right) ==
              See(ops, px, keep, Scan(ops, px, keep, start, left + right), c)
  {
    ScanConcat(ops, px, keep, start, left, right);
    ScanConcat(ops, px, keep, start, left + [c], right);
    ScanNext(ops, px, keep, start, left, c);
    SeeLater(ops, px, keep, Scan(ops, px, keep, start, left), c, right);
  }

  lemma {:induction false} ScanPermuted<V(!new)>(ops: Ops<V>, px: Cell -> Option<V>, keep: Cell -> bool,
                                          start: Scanned<V>, a: seq<Cell>, b: seq<Cell>)
    requires ExtremaCommute(ops) && SumCommutes(ops) && multiset(a) == multiset(b)
    ensures Scan(ops, px, keep, start, a) == Scan(ops, px, keep, start, b)
    decreases |a|
  {
    if a == [] {
      assert |multiset(b)| == 0;
    } else {
      var front, c := a[..|a| - 1], a[|a| - 1];
      assert a == front + [c];
      var left, right := TakeOut(front, c, b);
      ScanPermuted(ops, px, keep, start, front, left + right);
      SeeLast(ops, px, keep, start, left, c, right);
      ScanNext(ops, px, keep, start, front, c);
    }
  }

  /** `ops` with a sum that is never touched. */
  function Sumless<V>(ops: Ops<V>): Ops<V> {
    ops.(add := (s, v) => s)
  }

  ghost predicate SameButSum<V>(r: Scanned<V>, q: Scanned<V>) {
    match (r, q)
    case (Ok(s), Ok(t)) => s.count == t.count && s.min == t.min && s.max == t.max
    case (Err(e), Err(f)) => e == f
    case _ => false
  }

  lemma {:induction false} ScanSumless<V>(ops: Ops<V>, px: Cell -> Option<V>, keep: Cell -> bool, start: Scanned<V>,
                                          list: seq<Cell>)
    ensures SameButSum(Scan(ops, px, keep, start, list), Scan(Sumless(ops), px, keep, start, list))
  {
    if list != [] {
      ScanSumless(ops, px, keep, start, list[..|list| - 1]);
      ScanLast(ops, px, keep, start, list);
      ScanLast(Sumless(ops), px, keep, start, list);
    }
  }

  /** Scanned, count, min and max never depend on the order of visiting; the sum does not when addition is exact. */
  lemma ScanOrder<V(!new)>(ops: Ops<V>, px: Cell -> Option<V>, keep: Cell -> bool, start: Scanned<V>, a: seq<Cell>,
                    b: seq<Cell>)
    requires ExtremaCommute(ops) && multiset(a) == multiset(b)
    ensures SameButSum(Scan(ops, px, keep, start, a), Scan(ops, px, keep, start, b))
    ensures SumCommutes(ops) ==> Scan(ops, px, keep, start, a) == Scan(ops, px, keep, start, b)
  {
    ScanSumless(ops, px, keep, start, a);
    ScanSumless(ops, px, keep, start, b);
    ScanPermuted(Sumless(ops), px, keep, start, a, b);
    if SumCommutes(ops) {
      ScanPermuted(ops, px, keep, start, a, b);
    }
  }

  /** Real arithmetic meets both hypotheses. */
  function RealOps(isNodata: real -> bool): Ops<real> {
    Ops(0.0, (a, b) => a + b, (a, b) => if a <= b then a else b, (a, b) => if a >= b then a else b, isNodata)
  }

  lemma RealsCommute(isNodata: real -> bool)
    ensures ExtremaCommute(RealOps(isNodata)) && SumCommutes(RealOps(isNodata))
  {
  }
}
