/** Reading a decoded tile: every element is one pixel of one band, in either layout. */
module ArrayLaws {
  import opened Wrappers
  import opened Arrays
  import opened Grids

  /** As many elements as the shape says. */
  predicate Full<V>(a: Array<V>) {
    |a.data| == a.d0 * a.d1 * a.d2
  }

  /** (row, col, band0) is in the shape: (rows, columns, bands) when chunky, (bands, rows, columns) when planar. */
  predicate InShape<V>(a: Array<V>, planar: Planar, row: nat, col: nat, band0: nat) {
    match planar
    case Chunky => row < a.d0 && col < a.d1 && band0 < a.d2
    case Planar => band0 < a.d0 && row < a.d1 && col < a.d2
    case Unknown => false
  }

  /** Index of (i, j, k) in a row-major block. */
  function Offset(i: nat, j: nat, k: nat, d1: nat, d2: nat): nat {
    (i * d1 + j) * d2 + k
  }

  lemma OffsetInBlock(i: nat, j: nat, k: nat, d0: nat, d1: nat, d2: nat)
    requires i < d0 && j < d1 && k < d2
    ensures Offset(i, j, k, d1, d2) < d0 * d1 * d2
  {
    SlotBound(j, i, d1, d0);
    SlotBound(k, i * d1 + j, d2, d0 * d1);
    assert d1 * d0 == d0 * d1 && d2 * (d0 * d1) == d0 * d1 * d2;
  }

  /** No two places share an element. */
  lemma OffsetInjective(i: nat, j: nat, k: nat, i': nat, j': nat, k': nat, d1: nat, d2: nat)
    requires j < d1 && k < d2 && j' < d1 && k' < d2 && Offset(i, j, k, d1, d2) == Offset(i', j', k', d1, d2)
    ensures (i, j, k) == (i', j', k')
  {
    SameSlot(k, i * d1 + j, k', i' * d1 + j', d2);
    SameSlot(j, i, j', i', d1);
  }

  /** Where the value of (row, col, band0) is. */
  function PlaceOf<V>(a: Array<V>, planar: Planar, row: nat, col: nat, band0: nat): nat {
    if planar.Chunky? then Offset(row, col, band0, a.d1, a.d2) else Offset(band0, row, col, a.d1, a.d2)
  }

  lemma PlaceInData<V>(a: Array<V>, planar: Planar, row: nat, col: nat, band0: nat)
    requires Full(a) && InShape(a, planar, row, col, band0)
    ensures PlaceOf(a, planar, row, col, band0) < |a.data|
  {
    if planar.Chunky? {
      OffsetInBlock(row, col, band0, a.d0, a.d1, a.d2);
    } else {
      OffsetInBlock(band0, row, col, a.d0, a.d1, a.d2);
    }
  }

  lemma SampleIsPlace<V>(a: Array<V>, planar: Planar, row: nat, col: nat, band0: nat)
    ensures SampleArray(a, planar, row, col, band0) ==
              if InShape(a, planar, row, col, band0) then Get(a.data, PlaceOf(a, planar, row, col, band0)) else None
  {
  }

  /** A full tile has a value exactly at the places of its shape, and no two places of it share an element. */
  lemma FullTileHasEveryPlace<V>(a: Array<V>, planar: Planar, row: nat, col: nat, band0: nat, row': nat, col': nat,
                                 band0': nat)
    requires Full(a)
    ensures SampleArray(a, planar, row, col, band0).Some? <==> InShape(a, planar, row, col, band0)
    ensures InShape(a, planar, row, col, band0) && InShape(a, planar, row', col', band0') &&
            PlaceOf(a, planar, row, col, band0) == PlaceOf(a, planar, row', col', band0') ==>
              (row, col, band0) == (row', col', band0')
  {
    SampleIsPlace(a, planar, row, col, band0);
    if InShape(a, planar, row, col, band0) {
      PlaceInData(a, planar, row, col, band0);
      if
        && InShape(a, planar, row', col', band0')
        && PlaceOf(a, planar, row, col, band0) == PlaceOf(a, planar, row', col', band0')
      {
        if planar.Chunky? {
          OffsetInjective(row, col, band0, row', col', band0', a.d1, a.d2);
        } else {
          OffsetInjective(band0, row, col, band0', row', col', a.d1, a.d2);
        }
      }
    }
  }

  // ---- blocks -------------------------------------------------------------------------------

  /** Lists one after the other. */
  function Flat<V>(parts: seq<seq<V>>): seq<V> {
    if parts == [] then [] else Flat(parts[..|parts| - 1]) + parts[|parts| - 1]
  }

  /** A block of lists of lists, written out. */
  function Written<V>(block: seq<seq<seq<V>>>): seq<V> {
    Flat(seq(|block|, i requires 0 <= i < |block| => Flat(block[i])))
  }

  /** d0 lists of d1 lists of d2 elements. */
  ghost predicate HasShape<V>(block: seq<seq<seq<V>>>, d0: nat, d1: nat, d2: nat) {
    && |block| == d0
    && forall i :: 0 <= i < d0 ==> |block[i]| == d1 && forall j :: 0 <= j < d1 ==> |block[i][j]| == d2
  }

  lemma {:induction false} FlatSize<V>(parts: seq<seq<V>>, m: nat)
    requires forall i :: 0 <= i < |parts| ==> |parts[i]| == m
    ensures |Flat(parts)| == |parts| * m
  {
    if parts != [] {
      FlatSize(parts[..|parts| - 1], m);
      assert |parts| * m == (|parts| - 1) * m + m;
    }
  }

  lemma {:induction false} FlatAt<V>(parts: seq<seq<V>>, m: nat, i: nat, j: nat)
    requires (forall i :: 0 <= i < |parts| ==> |parts[i]| == m) && i < |parts| && j < m
    ensures |Flat(parts)| == |parts| * m && i * m + j < |parts| * m && Flat(parts)[i * m + j] == parts[i][j]
  {
    var n := |parts| - 1;
    FlatSize(parts, m);
    FlatSize(parts[..n], m);
    SlotBound(j, i, m, |parts|);
    assert m * |parts| == |parts| * m;
    if i < n {
      FlatAt(parts[..n], m, i, j);
    }
  }

  lemma OffsetInParts(i: nat, j: nat, k: nat, d1: nat, d2: nat, m: nat)
    requires m == d1 * d2
    ensures Offset(i, j, k, d1, d2) == i * m + (j * d2 + k)
  {
    assert i * (d1 * d2) == (i * d1) * d2;
    assert (i * d1 + j) * d2 == (i * d1) * d2 + j * d2;
  }

  lemma WrittenAt<V>(block: seq<seq<seq<V>>>, d0: nat, d1: nat, d2: nat, i: nat, j: nat, k: nat)
    requires HasShape(block, d0, d1, d2) && i < d0 && j < d1 && k < d2
    ensures Offset(i, j, k, d1, d2) < |Written(block)| && Written(block)[Offset(i, j, k, d1, d2)] == block[i][j][k]
  {
    var parts := seq(|block|, i requires 0 <= i < |block| => Flat(block[i]));
    var m := d1 * d2;
    PartsSize(block, parts, d0, d1, d2, m);
    FlatAt(block[i], d2, j, k);
    FlatAt(parts, m, i, j * d2 + k);
    OffsetInParts(i, j, k, d1, d2, m);
  }

  lemma PartsSize<V>(block: seq<seq<seq<V>>>, parts: seq<seq<V>>, d0: nat, d1: nat, d2: nat, m: nat)
    requires HasShape(block, d0, d1, d2) && m == d1 * d2
    requires |parts| == |block| && forall i :: 0 <= i < |block| ==> parts[i] == Flat(block[i])
    ensures forall i :: 0 <= i < |parts| ==> |parts[i]| == m
  {
    forall i | 0 <= i < |parts| ensures |parts[i]| == m {
      FlatSize(block[i], d2);
    }
  }

  /** A tile written as rows of pixels of bands reads back as them when chunky, and one written as bands of rows of
      columns when planar; nothing is read outside the shape or without a layout. */
  lemma TileReadsAsWritten<V>(a: Array<V>, block: seq<seq<seq<V>>>, row: nat, col: nat, band0: nat)
    requires HasShape(block, a.d0, a.d1, a.d2) && a.data == Written(block)
    ensures SampleArray(a, Chunky, row, col, band0) ==
              if row < a.d0 && col < a.d1 && band0 < a.d2 then Some(block[row][col][band0]) else None
    ensures SampleArray(a, Planar, row, col, band0) ==
              if band0 < a.d0 && row < a.d1 && col < a.d2 then Some(block[band0][row][col]) else None
    ensures SampleArray(a, Unknown, row, col, band0) == None
  {
    if row < a.d0 && col < a.d1 && band0 < a.d2 {
      WrittenAt(block, a.d0, a.d1, a.d2, row, col, band0);
    }
    if band0 < a.d0 && row < a.d1 && col < a.d2 {
      WrittenAt(block, a.d0, a.d1, a.d2, band0, row, col);
    }
  }

  /** The bytes a tile counts for in the cache: all of its elements. */
  lemma WrittenBytes<V>(a: Array<V>, block: seq<seq<seq<V>>>)
    requires HasShape(block, a.d0, a.d1, a.d2) && a.data == Written(block)
    ensures Full(a) && ArrayBytes(a) == a.d0 * a.d1 * a.d2 * a.elementBytes
  {
    var parts := seq(|block|, i requires 0 <= i < |block| => Flat(block[i]));
    var m := a.d1 * a.d2;
    PartsSize(block, parts, a.d0, a.d1, a.d2, m);
    FlatSize(parts, m);
    Regrouped(a.d0, a.d1, a.d2, m, a.elementBytes);
  }

  lemma Regrouped(d0: nat, d1: nat, d2: nat, m: nat, bytes: nat)
    requires m == d1 * d2
    ensures d0 * m == d0 * d1 * d2 && (d0 * m) * bytes == d0 * d1 * d2 * bytes
  {
    assert d0 * (d1 * d2) == d0 * d1 * d2;
  }
}
