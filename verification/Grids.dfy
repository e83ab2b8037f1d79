/** Row-major cell lists, and how a window's cells are dealt out to tiles. */
module Grids {
  import opened Windows

  /** A pixel (column, row) or a tile (tile_x, tile_y). */
  datatype Cell = Cell(x: nat, y: nat)

  predicate Covers(w: Window, c: Cell) {
    w.colMin <= c.x <= w.colMax && w.rowMin <= c.y <= w.rowMax
  }

  /** Cells x0 <= x < x1 of row y. */
  function Row(x0: nat, x1: int, y: nat): seq<Cell>
    decreases x1
  {
    if x1 <= x0 then [] else Row(x0, x1 - 1, y) + [Cell(x1 - 1, y)]
  }

  /** Cells x0 <= x < x1, y0 <= y < y1, row by row. */
  function Rect(x0: nat, x1: int, y0: nat, y1: int): seq<Cell>
    decreases y1
  {
    if y1 <= y0 then [] else Rect(x0, x1, y0, y1 - 1) + Row(x0, x1, y1 - 1)
  }

  lemma RectNext(x0: nat, x1: int, y0: nat, y: nat)
    requires y0 <= y
    ensures Rect(x0, x1, y0, y + 1) == Rect(x0, x1, y0, y) + Row(x0, x1, y)
  {
  }

  /** The window's pixels in row-major order. */
  function Pixels(w: Window): seq<Cell> {
    Rect(w.colMin, w.colMax + 1, w.rowMin, w.rowMax + 1)
  }

  /** The tiles a window touches, row-major: outer loop over tile_y. */
  function WindowTiles(w: Window, tw: nat, th: nat): seq<Cell>
    requires tw > 0 && th > 0
  {
    Rect(w.colMin / tw, w.colMax / tw + 1, w.rowMin / th, w.rowMax / th + 1)
  }

  function TileOf(c: Cell, tw: nat, th: nat): Cell
    requires tw > 0 && th > 0
  {
    Cell(c.x / tw, c.y / th)
  }

  /** First pixel of a tile. */
  function Corner(t: Cell, tw: nat, th: nat): Cell {
    Cell(t.x * tw, t.y * th)
  }

  /** The part of the window on the tile whose corner is t0, row-major. */
  function ClipAt(w: Window, t0: Cell, tw: nat, th: nat): seq<Cell> {
    Rect(MaxInt(w.colMin, t0.x), MinInt(w.colMax, t0.x + tw - 1) + 1,
         MaxInt(w.rowMin, t0.y), MinInt(w.rowMax, t0.y + th - 1) + 1)
  }

  function Clip(w: Window, t: Cell, tw: nat, th: nat): seq<Cell> {
    ClipAt(w, Corner(t, tw, th), tw, th)
  }

  /** The window's pixels in the order a tile list visits them. */
  function Visit(w: Window, tiles: seq<Cell>, tw: nat, th: nat): seq<Cell> {
    if tiles == [] then []
    else Visit(w, tiles[..|tiles| - 1], tw, th) + Clip(w, tiles[|tiles| - 1], tw, th)
  }

  // ---- counting -----------------------------------------------------------------------------

  function One(b: bool): nat {
    if b then 1 else 0
  }

  /** Appending one cell adds one to its own count and leaves the others. */
  lemma AppendCount(s: seq<Cell>, d: Cell, c: Cell)
    ensures multiset(s + [d])[c] == multiset(s)[c] + One(d == c)
  {
  }

  lemma ConcatCount(s: seq<Cell>, t: seq<Cell>, c: Cell)
    ensures multiset(s + t)[c] == multiset(s)[c] + multiset(t)[c]
  {
  }

  lemma {:induction false} RowCount(x0: nat, x1: int, y: nat, c: Cell)
    ensures multiset(Row(x0, x1, y))[c] == One(c.y == y && x0 <= c.x < x1)
    decreases x1
  {
    if x0 < x1 {
      RowCount(x0, x1 - 1, y, c);
      AppendCount(Row(x0, x1 - 1, y), Cell(x1 - 1, y), c);
    }
  }

  /** A rectangle lists each of its cells once and no other. */
  lemma {:induction false} RectCount(x0: nat, x1: int, y0: nat, y1: int, c: Cell)
    ensures multiset(Rect(x0, x1, y0, y1))[c] == One(x0 <= c.x < x1 && y0 <= c.y < y1)
    decreases y1
  {
    if y0 < y1 {
      var y: nat := y1 - 1;
      RectCount(x0, x1, y0, y, c);
      RowCount(x0, x1, y, c);
      ConcatCount(Rect(x0, x1, y0, y), Row(x0, x1, y), c);
      RectNext(x0, x1, y0, y);
    }
  }

  lemma {:induction false} Steps(q: int, t: int, n: nat)
    ensures q < t ==> q * n + n <= t * n
    decreases t - q
  {
    if q + 1 < t {
      Steps(q, t - 1, n);
    }
    assert t * n == (t - 1) * n + n;
  }

  lemma MulMono(a: nat, b: int, n: nat)
    ensures a <= b ==> a * n <= b * n
  {
    if a <= b {
      assert (b - a) * n >= 0;
    }
  }

  lemma DivIsTile(c: nat, t: nat, n: nat)
    requires n > 0
    ensures t * n <= c <= t * n + n - 1 <==> c / n == t
  {
    var q := c / n;
    assert c == q * n + c % n;
    Steps(q, t, n);
    Steps(t, q, n);
  }

  lemma RectHas(x0: nat, x1: int, y0: nat, y1: int, c: Cell)
    ensures c in Rect(x0, x1, y0, y1) <==> x0 <= c.x < x1 && y0 <= c.y < y1
  {
    RectCount(x0, x1, y0, y1, c);
    assert c in Rect(x0, x1, y0, y1) <==> multiset(Rect(x0, x1, y0, y1))[c] > 0;
  }

  lemma RectCountAs(x0: nat, x1: int, y0: nat, y1: int, c: Cell, inside: bool, list: seq<Cell>)
    requires list == Rect(x0, x1, y0, y1) && (inside <==> x0 <= c.x < x1 && y0 <= c.y < y1)
    ensures multiset(list)[c] == One(inside)
  {
    RectCount(x0, x1, y0, y1, c);
  }

  predicate OnTile(t0: Cell, tw: nat, th: nat, c: Cell) {
    t0.x <= c.x <= t0.x + tw - 1 && t0.y <= c.y <= t0.y + th - 1
  }

  lemma ClipAtCount(w: Window, t0: Cell, tw: nat, th: nat, c: Cell, clip: seq<Cell>)
    requires clip == ClipAt(w, t0, tw, th)
    ensures multiset(clip)[c] == One(Covers(w, c) && OnTile(t0, tw, th, c))
  {
    RectCountAs(MaxInt(w.colMin, t0.x), MinInt(w.colMax, t0.x + tw - 1) + 1,
                MaxInt(w.rowMin, t0.y), MinInt(w.rowMax, t0.y + th - 1) + 1, c,
                Covers(w, c) && OnTile(t0, tw, th, c), clip);
  }

  lemma ClipCount(w: Window, t: Cell, tw: nat, th: nat, c: Cell)
    requires tw > 0 && th > 0
    ensures multiset(Clip(w, t, tw, th))[c] == One(Covers(w, c) && TileOf(c, tw, th) == t)
  {
    ClipAtCount(w, Corner(t, tw, th), tw, th, c, Clip(w, t, tw, th));
    DivIsTile(c.x, t.x, tw);
    DivIsTile(c.y, t.y, th);
  }

  /** A tile list visits a window pixel as often as it lists the pixel's tile. */
  lemma {:induction false} VisitCount(w: Window, tiles: seq<Cell>, tw: nat, th: nat, c: Cell)
    requires tw > 0 && th > 0
    ensures multiset(Visit(w, tiles, tw, th))[c] == if Covers(w, c) then multiset(tiles)[TileOf(c, tw, th)] else 0
  {
    if tiles != [] {
      var front, t := tiles[..|tiles| - 1], tiles[|tiles| - 1];
      assert tiles == front + [t];
      VisitCount(w, front, tw, th, c);
      ClipCount(w, t, tw, th, c);
    }
  }

  lemma DivMono(a: nat, b: nat, n: nat)
    requires n > 0 && a <= b
    ensures a / n <= b / n
  {
    assert a == a / n * n + a % n && b == b / n * n + b % n;
    Steps(b / n, a / n, n);
  }

  lemma PixelTileListedOnce(w: Window, tw: nat, th: nat, c: Cell, tiles: seq<Cell>)
    requires tw > 0 && th > 0 && Covers(w, c) && tiles == WindowTiles(w, tw, th)
    ensures multiset(tiles)[TileOf(c, tw, th)] == 1
  {
    DivMono(w.colMin, c.x, tw);
    DivMono(c.x, w.colMax, tw);
    DivMono(w.rowMin, c.y, th);
    DivMono(c.y, w.rowMax, th);
    RectCountAs(w.colMin / tw, w.colMax / tw + 1, w.rowMin / th, w.rowMax / th + 1, TileOf(c, tw, th), true, tiles);
  }

  lemma VisitedOnce(w: Window, tw: nat, th: nat, c: Cell, visited: seq<Cell>, pixels: seq<Cell>)
    requires tw > 0 && th > 0 && visited == Visit(w, WindowTiles(w, tw, th), tw, th) && pixels == Pixels(w)
    ensures multiset(visited)[c] == multiset(pixels)[c] == One(Covers(w, c))
  {
    var tiles := WindowTiles(w, tw, th);
    VisitCount(w, tiles, tw, th, c);
    RectCountAs(w.colMin, w.colMax + 1, w.rowMin, w.rowMax + 1, c, Covers(w, c), pixels);
    if Covers(w, c) {
      PixelTileListedOnce(w, tw, th, c, tiles);
    }
  }

  /** The tiles of a window partition it: each window pixel is visited exactly once, nothing else is. */
  lemma TilesPartitionWindow(w: Window, tw: nat, th: nat)
    requires tw > 0 && th > 0
    ensures multiset(Visit(w, WindowTiles(w, tw, th), tw, th)) == multiset(Pixels(w))
    ensures forall c :: multiset(Pixels(w))[c] == One(Covers(w, c))
  {
    var visited, pixels := Visit(w, WindowTiles(w, tw, th), tw, th), Pixels(w);
    forall c ensures multiset(visited)[c] == multiset(pixels)[c] == One(Covers(w, c)) {
      VisitedOnce(w, tw, th, c, visited, pixels);
    }
  }

  // ---- positions ----------------------------------------------------------------------------

  lemma {:induction false} RowAt(x0: nat, x1: int, y: nat)
    ensures |Row(x0, x1, y)| == if x1 <= x0 then 0 else x1 - x0
    ensures forall i :: 0 <= i < |Row(x0, x1, y)| ==> Row(x0, x1, y)[i] == Cell(x0 + i, y)
    decreases x1
  {
    if x0 < x1 {
      RowAt(x0, x1 - 1, y);
    }
  }

  /** A rectangle is listed row by row. */
  lemma {:induction false} RectIsRowMajor(x0: nat, x1: int, y0: nat, y1: int, p: nat, q: nat)
    requires p < q < |Rect(x0, x1, y0, y1)|
    ensures var (c, d) := (Rect(x0, x1, y0, y1)[p], Rect(x0, x1, y0, y1)[q]); c.y < d.y || (c.y == d.y && c.x < d.x)
    decreases y1
  {
    var above := Rect(x0, x1, y0, y1 - 1);
    RowAt(x0, x1, y1 - 1);
    if q < |above| {
      RectIsRowMajor(x0, x1, y0, y1 - 1, p, q);
    } else if p < |above| {
      RectHas(x0, x1, y0, y1 - 1, above[p]);
    }
  }

  /** Position in a row-major rectangle of width `width`. */
  lemma {:induction false} RectAt(x0: nat, x1: nat, y0: nat, y1: nat, i: nat, j: nat)
    requires x0 <= x1 && y0 <= y1 && i < x1 - x0 && j < y1 - y0
    ensures |Rect(x0, x1, y0, y1)| == (x1 - x0) * (y1 - y0)
    ensures 0 <= j * (x1 - x0) + i < (x1 - x0) * (y1 - y0)
    ensures Rect(x0, x1, y0, y1)[j * (x1 - x0) + i] == Cell(x0 + i, y0 + j)
    decreases y1
  {
    var n := x1 - x0;
    RectSize(x0, x1, y0, y1);
    RectSize(x0, x1, y0, y1 - 1);
    RowAt(x0, x1, y1 - 1);
    SlotBound(i, j, n, y1 - y0);
    if j < y1 - y0 - 1 {
      RectAt(x0, x1, y0, y1 - 1, i, j);
    } else {
      assert j * n == n * (y1 - 1 - y0);
    }
  }

  lemma SlotBound(i: nat, j: nat, n: nat, m: nat)
    requires i < n && j < m
    ensures 0 <= j * n + i < n * m
  {
    assert (j + 1) * n <= m * n;
  }

  lemma SameSlot(i: nat, j: nat, k: nat, l: nat, n: nat)
    requires i < n && k < n && j * n + i == l * n + k
    ensures i == k && j == l
  {
    Steps(j, l, n);
    Steps(l, j, n);
  }

  lemma {:induction false} RectSize(x0: nat, x1: nat, y0: nat, y1: int)
    requires x0 <= x1 && y0 <= y1
    ensures |Rect(x0, x1, y0, y1)| == (x1 - x0) * (y1 - y0)
    decreases y1
  {
    if y0 < y1 {
      RectSize(x0, x1, y0, y1 - 1);
      RowAt(x0, x1, y1 - 1);
      assert (x1 - x0) * (y1 - y0) == (x1 - x0) * (y1 - 1 - y0) + (x1 - x0);
    }
  }
}
