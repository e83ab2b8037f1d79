/** The two orders in which the readers claim tiles: windows row by row, point lists and batches by (x, y). When one
    kind of reader, or both kinds together, can block each other. */
module ClaimOrders {
  import opened TileStore
  import opened Windows
  import opened Grids
  import opened CellOrder
  import opened Raster
  import opened FetchProtocol
  import opened FetchProgress
  import opened FetchThreads
  import opened FetchDeadlock
  import opened FetchCaches

  /** Tile indices fit 24 bits, as every opened file's do. */
  const GRID := 0x100_0000

  ghost predicate InGrid(keys: seq<Key>) {
    forall p :: 0 <= p < |keys| ==> keys[p].x < GRID && keys[p].y < GRID
  }

  predicate RowFirst(a: Key, b: Key) {
    a.y < b.y || (a.y == b.y && a.x < b.x)
  }

  predicate ColumnFirst(a: Key, b: Key) {
    a.x < b.x || (a.x == b.x && a.y < b.y)
  }

  ghost predicate RowMajor(keys: seq<Key>) {
    forall p, q :: 0 <= p < q < |keys| ==> RowFirst(keys[p], keys[q])
  }

  ghost predicate ColumnMajor(keys: seq<Key>) {
    forall p, q :: 0 <= p < q < |keys| ==> ColumnFirst(keys[p], keys[q])
  }

  function RowRank(): Key -> int {
    (k: Key) => k.y * GRID + k.x
  }

  function ColumnRank(): Key -> int {
    (k: Key) => k.x * GRID + k.y
  }

  // ---- what the readers claim ---------------------------------------------------------------

  /** accumulate_window and band_window claim row by row. */
  lemma WindowKeysRowMajor<V>(cog: Cog<V>, level: nat, w: Window, tw: nat, th: nat)
    requires tw > 0 && th > 0
    ensures RowMajor(TileKeys(cog, level, WindowTiles(w, tw, th)))
  {
    var keys := TileKeys(cog, level, WindowTiles(w, tw, th));
    forall p, q | 0 <= p < q < |keys| ensures RowFirst(keys[p], keys[q]) {
      RectIsRowMajor(w.colMin / tw, w.colMax / tw + 1, w.rowMin / th, w.rowMax / th + 1, p, q);
    }
  }

  /** read_pixels and the batch claim in (x, y) order. */
  lemma SortedKeysColumnMajor<V>(cog: Cog<V>, level: nat, tiles: seq<Cell>)
    requires Increasing(tiles)
    ensures ColumnMajor(TileKeys(cog, level, tiles))
  {
  }

  lemma RowMajorAscends(keys: seq<Key>)
    requires RowMajor(keys) && InGrid(keys)
    ensures Ascending(keys, RowRank())
  {
    forall p, q | 0 <= p < q < |keys| ensures RowRank()(keys[p]) < RowRank()(keys[q]) {
      assert RowFirst(keys[p], keys[q]);
    }
  }

  lemma ColumnMajorAscends(keys: seq<Key>)
    requires ColumnMajor(keys) && InGrid(keys)
    ensures Ascending(keys, ColumnRank())
  {
    forall p, q | 0 <= p < q < |keys| ensures ColumnRank()(keys[p]) < ColumnRank()(keys[q]) {
      assert ColumnFirst(keys[p], keys[q]);
    }
  }

  // ---- one kind of reader only --------------------------------------------------------------

  ghost predicate AllRowMajor<V>(calls: seq<Call<V>>) {
    forall i :: 0 <= i < |calls| ==> RowMajor(calls[i].keys) && InGrid(calls[i].keys)
  }

  ghost predicate AllColumnMajor<V>(calls: seq<Call<V>>) {
    forall i :: 0 <= i < |calls| ==> ColumnMajor(calls[i].keys) && InGrid(calls[i].keys)
  }

  lemma OneKindIsCommonOrder<V>(calls: seq<Call<V>>)
    ensures AllRowMajor(calls) ==> CommonOrder(calls, RowRank())
    ensures AllColumnMajor(calls) ==> CommonOrder(calls, ColumnRank())
  {
    forall i | 0 <= i < |calls|
      ensures RowMajor(calls[i].keys) && InGrid(calls[i].keys) ==> Ascending(calls[i].keys, RowRank())
      ensures ColumnMajor(calls[i].keys) && InGrid(calls[i].keys) ==> Ascending(calls[i].keys, ColumnRank())
    {
      if RowMajor(calls[i].keys) && InGrid(calls[i].keys) {
        RowMajorAscends(calls[i].keys);
      }
      if ColumnMajor(calls[i].keys) && InGrid(calls[i].keys) {
        ColumnMajorAscends(calls[i].keys);
      }
    }
  }

  /** Window readers alone, or point and batch readers alone, whatever their files and levels, each on its own thread:
      never stuck. */
  lemma OneKindNeverSticks<V>(cfg: Config<V>, thread: nat -> nat, run: seq<System<V>>)
    requires ThreadedRun(cfg, thread, run) && OwnThreads(thread, |run[0].calls|)
    requires AllRowMajor(run[0].calls) || AllColumnMajor(run[0].calls)
    ensures !StuckOn(thread, run[|run| - 1])
  {
    var calls := run[0].calls;
    OneKindIsCommonOrder(calls);
    OwnThreadsAndCommonOrderNeverStick(cfg, thread, run, if AllRowMajor(calls) then RowRank() else ColumnRank());
  }

  // ---- both kinds, over given cache contents ------------------------------------------------

  ghost predicate Shared(a: seq<Key>, b: seq<Key>, k: Key) {
    k in a && k in b
  }

  /** A shared tile that is leftmost and topmost among the shared tiles. */
  ghost predicate IsCorner(a: seq<Key>, b: seq<Key>, c: Key) {
    Shared(a, b, c) && forall d :: Shared(a, b, d) ==> c.x <= d.x && c.y <= d.y
  }

  /** The first shared key of a list comes before the other shared keys of it. */
  lemma FirstSharedIsFirst(a: seq<Key>, b: seq<Key>, d: Key) returns (q: nat)
    requires Shared(a, b, d)
    ensures FirstShared(a, b) <= q < |a| && a[q] == d && Shared(a, b, a[FirstShared(a, b)])
  {
    q :| 0 <= q < |a| && a[q] == d;
  }

  lemma RowMajorFirst(a: seq<Key>, b: seq<Key>, d: Key)
    requires RowMajor(a) && Shared(a, b, d)
    ensures FirstShared(a, b) < |a| && Shared(a, b, a[FirstShared(a, b)])
    ensures a[FirstShared(a, b)] == d || RowFirst(a[FirstShared(a, b)], d)
  {
    var q := FirstSharedIsFirst(a, b, d);
  }

  lemma ColumnMajorFirst(a: seq<Key>, b: seq<Key>, d: Key)
    requires ColumnMajor(b) && Shared(a, b, d)
    ensures FirstShared(b, a) < |b| && Shared(a, b, b[FirstShared(b, a)])
    ensures b[FirstShared(b, a)] == d || ColumnFirst(b[FirstShared(b, a)], d)
  {
    var q := FirstSharedIsFirst(b, a, d);
  }

  /** A row-major and an (x, y) list are crossed exactly when they share tiles none of which is both leftmost and
      topmost among the shared ones. */
  lemma MixedOrdersCrossIff(a: seq<Key>, b: seq<Key>)
    requires RowMajor(a) && ColumnMajor(b)
    ensures Crossed(a, b) <==> ShareKey(a, b) && !exists c :: IsCorner(a, b, c)
  {
    if ShareKey(a, b) {
      var c := a[FirstShared(a, b)];
      assert Shared(a, b, c);
      ColumnMajorFirst(a, b, c);
      var d := b[FirstShared(b, a)];
      if c == d {
        forall e | Shared(a, b, e) ensures c.x <= e.x && c.y <= e.y {
          RowMajorFirst(a, b, e);
          ColumnMajorFirst(a, b, e);
        }
        assert IsCorner(a, b, c);
      } else {
        forall e ensures !IsCorner(a, b, e) {
          if IsCorner(a, b, e) {
            RowMajorFirst(a, b, e);
            ColumnMajorFirst(a, b, e);
            assert false;
          }
        }
      }
    }
  }

  lemma ColdKeepsRowMajor<V>(keys: seq<Key>, ready: seq<Entry<V>>, cold: seq<Key>)
    requires RowMajor(keys) && cold == Cold(keys, ready)
    ensures RowMajor(cold)
  {
    forall m, n | 0 <= m < n < |cold| ensures RowFirst(cold[m], cold[n]) {
      ColdKeepsBefore(keys, ready, cold, m, n);
    }
  }

  lemma ColdKeepsColumnMajor<V>(keys: seq<Key>, ready: seq<Entry<V>>, cold: seq<Key>)
    requires ColumnMajor(keys) && cold == Cold(keys, ready)
    ensures ColumnMajor(cold)
  {
    forall m, n | 0 <= m < n < |cold| ensures ColumnFirst(cold[m], cold[n]) {
      ColdKeepsBefore(keys, ready, cold, m, n);
    }
  }

  /** A window reader and a point or batch reader on two threads can block each other exactly when they share tiles that
      are not resident and none of these is both leftmost and topmost among them. */
  lemma MixedOrdersStickIff<V(!new)>(cfg: Config<V>, thread: nat -> nat, s: System<V>)
    requires Pair(cfg, s) && thread(0) != thread(1)
    requires RowMajor(s.calls[0].keys) && ColumnMajor(s.calls[1].keys)
    ensures var a, b := Cold(s.calls[0].keys, s.store.ready), Cold(s.calls[1].keys, s.store.ready);
            CanStick(cfg, thread, s) <==> ShareKey(a, b) && !exists c :: IsCorner(a, b, c)
  {
    var a, b := Cold(s.calls[0].keys, s.store.ready), Cold(s.calls[1].keys, s.store.ready);
    ColdKeepsRowMajor(s.calls[0].keys, s.store.ready, a);
    ColdKeepsColumnMajor(s.calls[1].keys, s.store.ready, b);
    MixedOrdersCrossIff(a, b);
    CanStickIff(cfg, thread, s);
  }

  // ---- both kinds, over some cache contents -------------------------------------------------

  /** One shared tile lies below and to the left of another. */
  ghost predicate SharesDiagonal(a: seq<Key>, b: seq<Key>) {
    exists c, d :: Diagonal(a, b, c, d)
  }

  ghost predicate Diagonal(a: seq<Key>, b: seq<Key>, c: Key, d: Key) {
    Shared(a, b, c) && Shared(a, b, d) && c.x < d.x && c.y > d.y
  }

  lemma OpposedIsDiagonal(a: seq<Key>, b: seq<Key>, c: Key, d: Key)
    requires RowMajor(a) && ColumnMajor(b) && OpposedOver(a, b, d, c)
    ensures Diagonal(a, b, c, d)
  {
  }

  lemma DiagonalIsOpposed(a: seq<Key>, b: seq<Key>, c: Key, d: Key)
    requires RowMajor(a) && ColumnMajor(b) && Diagonal(a, b, c, d)
    ensures OpposedOver(a, b, d, c)
  {
    var p, q :| 0 <= p < |a| && 0 <= q < |a| && a[p] == d && a[q] == c;
    var m, n :| 0 <= m < |b| && 0 <= n < |b| && b[m] == c && b[n] == d;
    assert p < q && m < n;
  }

  lemma MixedOrdersOpposedIff(a: seq<Key>, b: seq<Key>)
    requires RowMajor(a) && ColumnMajor(b)
    ensures Opposed(a, b) <==> SharesDiagonal(a, b)
  {
    if Opposed(a, b) {
      var c, d :| OpposedOver(a, b, d, c);
      OpposedIsDiagonal(a, b, c, d);
    }
    if SharesDiagonal(a, b) {
      var c, d :| Diagonal(a, b, c, d);
      DiagonalIsOpposed(a, b, c, d);
    }
  }

  /** Some cache contents let a window reader and a point or batch reader block each other exactly when one tile they
      share lies below and to the left of another. */
  lemma SomeCacheSticksMixedIff<V(!new)>(cfg: Config<V>, thread: nat -> nat, a: seq<Key>, b: seq<Key>)
    requires RowMajor(a) && ColumnMajor(b) && Roomy(cfg, a) && thread(0) != thread(1)
    ensures SomeCacheSticks(cfg, thread, a, b) <==> SharesDiagonal(a, b)
  {
    assert DistinctKeys(a) && DistinctKeys(b);
    MixedOrdersOpposedIff(a, b);
    SomeCacheSticksIff(cfg, thread, a, b);
  }

  // ---- windows ------------------------------------------------------------------------------

  predicate InTiles(w: Window, tw: nat, th: nat, x: nat, y: nat)
    requires tw > 0 && th > 0
  {
    w.colMin / tw <= x <= w.colMax / tw && w.rowMin / th <= y <= w.rowMax / th
  }

  lemma KeyListed<V>(cog: Cog<V>, level: nat, w: Window, tw: nat, th: nat, tiles: seq<Cell>, k: Key)
    requires tw > 0 && th > 0 && forall t :: t in tiles <==> t in WindowTiles(w, tw, th)
    ensures k in TileKeys(cog, level, tiles) <==> k == KeyAt(cog, level, Cell(k.x, k.y)) && InTiles(w, tw, th, k.x, k.y)
  {
    var t, keys := Cell(k.x, k.y), TileKeys(cog, level, tiles);
    RectHas(w.colMin / tw, w.colMax / tw + 1, w.rowMin / th, w.rowMax / th + 1, t);
    if t in tiles {
      var i :| 0 <= i < |tiles| && tiles[i] == t;
      assert keys[i] == KeyAt(cog, level, t);
    }
  }

  /** Two windows overlap in at least two columns and at least two rows of tiles. */
  predicate OverlapTwoByTwo(v: Window, w: Window, tw: nat, th: nat)
    requires tw > 0 && th > 0
  {
    && MaxInt(v.colMin / tw, w.colMin / tw) < MinInt(v.colMax / tw, w.colMax / tw)
    && MaxInt(v.rowMin / th, w.rowMin / th) < MinInt(v.rowMax / th, w.rowMax / th)
  }

  lemma WindowsShareDiagonalIff<V>(cog: Cog<V>, level: nat, v: Window, w: Window, tw: nat, th: nat, sorted: seq<Cell>,
                                   a: seq<Key>, b: seq<Key>)
    requires tw > 0 && th > 0 && forall t :: t in sorted <==> t in WindowTiles(w, tw, th)
    requires a == TileKeys(cog, level, WindowTiles(v, tw, th)) && b == TileKeys(cog, level, sorted)
    ensures SharesDiagonal(a, b) <==> OverlapTwoByTwo(v, w, tw, th)
  {
    forall k ensures Shared(a, b, k) <==>
        k == KeyAt(cog, level, Cell(k.x, k.y)) && InTiles(v, tw, th, k.x, k.y) && InTiles(w, tw, th, k.x, k.y) {
      KeyListed(cog, level, v, tw, th, WindowTiles(v, tw, th), k);
      KeyListed(cog, level, w, tw, th, sorted, k);
    }
    if OverlapTwoByTwo(v, w, tw, th) {
      var x, y: nat := MaxInt(v.colMin / tw, w.colMin / tw), MaxInt(v.rowMin / th, w.rowMin / th);
      assert Diagonal(a, b, KeyAt(cog, level, Cell(x, y + 1)), KeyAt(cog, level, Cell(x + 1, y)));
    }
  }

  /** A window read row by row and a window read by (x, y), of one level: some cache contents let them block each other
      exactly when they overlap in at least two by two tiles. The same window twice is no exception. */
  lemma WindowsStickIff<V(!new)>(cfg: Config<V>, thread: nat -> nat, cog: Cog<V>, level: nat, v: Window, w: Window,
                                 tw: nat, th: nat, sorted: seq<Cell>)
    requires tw > 0 && th > 0 && thread(0) != thread(1)
    requires Increasing(sorted) && forall t :: t in sorted <==> t in WindowTiles(w, tw, th)
    requires Roomy(cfg, TileKeys(cog, level, WindowTiles(v, tw, th)))
    ensures SomeCacheSticks(cfg, thread, TileKeys(cog, level, WindowTiles(v, tw, th)),
                            TileKeys(cog, level, sorted)) <==>
              OverlapTwoByTwo(v, w, tw, th)
  {
    var a, b := TileKeys(cog, level, WindowTiles(v, tw, th)), TileKeys(cog, level, sorted);
    WindowKeysRowMajor(cog, level, v, tw, th);
    SortedKeysColumnMajor(cog, level, sorted);
    WindowsShareDiagonalIff(cog, level, v, w, tw, th, sorted, a, b);
    SomeCacheSticksMixedIff(cfg, thread, a, b);
  }

  /** A window over a 2 by 2 block of tiles and two points in its off-diagonal tiles, neither of them resident: on two
      threads they can block each other, whatever else the cache holds. */
  lemma WindowAndPointsCanStick<V(!new)>(cfg: Config<V>, thread: nat -> nat, s: System<V>, cog: Cog<V>, w: Window,
                                         tw: nat, th: nat, x: nat, y: nat)
    requires tw > 0 && th > 0 && InTiles(w, tw, th, x, y + 1) && InTiles(w, tw, th, x + 1, y)
    requires Pair(cfg, s) && thread(0) != thread(1)
    requires !Has(s.store.ready, KeyAt(cog, 0, Cell(x, y + 1))) && !Has(s.store.ready, KeyAt(cog, 0, Cell(x + 1, y)))
    requires s.calls[0].keys == TileKeys(cog, 0, WindowTiles(w, tw, th))
    requires s.calls[1].keys == TileKeys(cog, 0, [Cell(x, y + 1), Cell(x + 1, y)])
    ensures CanStick(cfg, thread, s)
  {
    var ready, keys := s.store.ready, s.calls[0].keys;
    var c, d := KeyAt(cog, 0, Cell(x, y + 1)), KeyAt(cog, 0, Cell(x + 1, y));
    assert s.calls[1].keys == [c, d];
    WindowKeysRowMajor(cog, 0, w, tw, th);
    KeyListed(cog, 0, w, tw, th, WindowTiles(w, tw, th), c);
    KeyListed(cog, 0, w, tw, th, WindowTiles(w, tw, th), d);
    NoCornerOfTwo(keys, [c, d], ready, Cold(keys, ready), Cold([c, d], ready), c, d);
    MixedOrdersStickIff(cfg, thread, s);
  }

  lemma NoCornerOfTwo<V>(keys: seq<Key>, points: seq<Key>, ready: seq<Entry<V>>, a: seq<Key>, b: seq<Key>, c: Key,
                         d: Key)
    requires points == [c, d] && c.x < d.x && c.y > d.y && c in keys && d in keys && !Has(ready, c) && !Has(ready, d)
    requires a == Cold(keys, ready) && b == Cold(points, ready)
    ensures ShareKey(a, b) && !exists e :: IsCorner(a, b, e)
  {
    forall k ensures Shared(a, b, k) <==> k == c || k == d {
      ColdMembers(keys, ready, k);
      ColdMembers(points, ready, k);
    }
    assert Shared(a, b, c) && Shared(a, b, d);
  }
}
