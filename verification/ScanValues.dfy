/** What a scan's statistics are, said of the list of values it counts: how many, their sum in order, and over real
    numbers the least and the greatest of them. */
module ScanValues {
  import opened Wrappers
  import opened Grids
  import opened Raster

  /** The values of the kept pixels that are not nodata, in order. */
  function Counted<V>(isNodata: V -> bool, px: Cell -> Option<V>, keep: Cell -> bool, list: seq<Cell>): seq<V> {
    if list == [] then []
    else
      var front, c := Counted(isNodata, px, keep, list[..|list| - 1]), list[|list| - 1];
      if keep(c) && px(c).Some? && !isNodata(px(c).value) then front + [px(c).value] else front
  }

  /** f taken over the values from the left, from `zero` on. */
  function FoldFrom<V>(f: (V, V) -> V, zero: V, values: seq<V>): V {
    if values == [] then zero else f(FoldFrom(f, zero, values[..|values| - 1]), values[|values| - 1])
  }

  /** f taken over the values from the left, from the first on. */
  function FoldFirst<V>(f: (V, V) -> V, values: seq<V>): Option<V> {
    if values == [] then None else Some(FoldFrom(f, values[0], values[1..]))
  }

  lemma FoldFromNext<V>(f: (V, V) -> V, zero: V, values: seq<V>, v: V)
    ensures FoldFrom(f, zero, values + [v]) == f(FoldFrom(f, zero, values), v)
  {
    assert (values + [v])[..|values|] == values;
  }

  lemma FoldFirstNext<V>(f: (V, V) -> V, values: seq<V>, v: V)
    ensures FoldFirst(f, values + [v]) == Some(if values == [] then v else f(FoldFirst(f, values).value, v))
  {
    if values == [] {
      assert (values + [v])[1..] == [];
    } else {
      assert (values + [v])[1..] == values[1..] + [v];
      FoldFromNext(f, values[0], values[1..], v);
    }
  }

  /** Statistics of a scan: the count, sum, least and greatest of the values counted, each taken by its own
      operation. */
  lemma {:induction false} ScanIsOfValues<V>(ops: Ops<V>, px: Cell -> Option<V>, keep: Cell -> bool, list: seq<Cell>)
    requires Scan(ops, px, keep, Ok(Empty(ops)), list).Ok?
    ensures var s, values := Scan(ops, px, keep, Ok(Empty(ops)), list).value, Counted(ops.isNodata, px, keep, list);
            && s.count == |values| && s.sum == FoldFrom(ops.add, ops.zero, values)
            && s.min == FoldFirst(ops.min, values) && s.max == FoldFirst(ops.max, values)
  {
    if list != [] {
      var front, c := list[..|list| - 1], list[|list| - 1];
      ScanLast(ops, px, keep, Ok(Empty(ops)), list);
      ScanIsOfValues(ops, px, keep, front);
      if keep(c) && !ops.isNodata(px(c).value) {
        var values, v := Counted(ops.isNodata, px, keep, front), px(c).value;
        FoldFromNext(ops.add, ops.zero, values, v);
        FoldFirstNext(ops.min, values, v);
        FoldFirstNext(ops.max, values, v);
      }
    }
  }

  // ---- over real numbers --------------------------------------------------------------------

  function Sum(values: seq<real>): real {
    if values == [] then 0.0 else Sum(values[..|values| - 1]) + values[|values| - 1]
  }

  /** The least of the values, if there are any. */
  ghost predicate Least(values: seq<real>, least: Option<real>) {
    && (least.None? <==> values == [])
    && (least.Some? ==> least.value in values && forall v :: v in values ==> least.value <= v)
  }

  ghost predicate Greatest(values: seq<real>, greatest: Option<real>) {
    && (greatest.None? <==> values == [])
    && (greatest.Some? ==> greatest.value in values && forall v :: v in values ==> v <= greatest.value)
  }

  lemma OneMoreValue(isNodata: real -> bool, s: Stats<real>, values: seq<real>, v: real)
    requires s.sum == Sum(values) && Least(values, s.min) && Greatest(values, s.max)
    ensures var t := AddValue(RealOps(isNodata), s, v);
            t.sum == Sum(values + [v]) && Least(values + [v], t.min) && Greatest(values + [v], t.max)
  {
    assert (values + [v])[..|values|] == values;
    assert v in values + [v];
    assert forall x :: x in values + [v] <==> x in values || x == v;
  }

  /** Over real numbers a scan's statistics are the number of values counted, their sum, least and greatest. */
  lemma {:induction false} RealScan(isNodata: real -> bool, px: Cell -> Option<real>, keep: Cell -> bool,
                                    list: seq<Cell>)
    requires Scan(RealOps(isNodata), px, keep, Ok(Empty(RealOps(isNodata))), list).Ok?
    ensures var s, values := Scan(RealOps(isNodata), px, keep, Ok(Empty(RealOps(isNodata))), list).value,
                             Counted(isNodata, px, keep, list);
            s.count == |values| && s.sum == Sum(values) && Least(values, s.min) && Greatest(values, s.max)
  {
    var ops := RealOps(isNodata);
    if list != [] {
      var front, c := list[..|list| - 1], list[|list| - 1];
      ScanLast(ops, px, keep, Ok(Empty(ops)), list);
      RealScan(isNodata, px, keep, front);
      if keep(c) && !isNodata(px(c).value) {
        var s := Scan(ops, px, keep, Ok(Empty(ops)), front).value;
        OneMoreValue(isNodata, s, Counted(isNodata, px, keep, front), px(c).value);
      }
    }
  }

  // ---- by pixel -----------------------------------------------------------------------------

  /** A kept pixel with a value that is not nodata. */
  predicate IsCounted<V>(isNodata: V -> bool, px: Cell -> Option<V>, keep: Cell -> bool, c: Cell) {
    keep(c) && px(c).Some? && !isNodata(px(c).value)
  }

  /** The pixels of a list that are counted. */
  ghost function CountedCells<V>(isNodata: V -> bool, px: Cell -> Option<V>, keep: Cell -> bool,
                                 list: seq<Cell>): set<Cell> {
    set c | c in list && IsCounted(isNodata, px, keep, c)
  }

  ghost predicate NoneTwice(list: seq<Cell>) {
    forall i, j :: 0 <= i < j < |list| ==> list[i] != list[j]
  }

  /** The values in the list are those of the cells. */
  ghost predicate ValuesOf<V>(px: Cell -> Option<V>, cells: set<Cell>, values: seq<V>) {
    && (forall c :: c in cells ==> px(c).Some? && px(c).value in values)
    && (forall v :: v in values ==> exists c :: c in cells && px(c) == Some(v))
  }

  lemma CellsNext<V>(isNodata: V -> bool, px: Cell -> Option<V>, keep: Cell -> bool, front: seq<Cell>, c: Cell)
    ensures CountedCells(isNodata, px, keep, front + [c]) ==
              CountedCells(isNodata, px, keep, front) + if IsCounted(isNodata, px, keep, c) then {c} else {}
  {
  }

  lemma ValuesNext<V>(px: Cell -> Option<V>, cells: set<Cell>, values: seq<V>, c: Cell)
    requires ValuesOf(px, cells, values) && px(c).Some?
    ensures ValuesOf(px, cells + {c}, values + [px(c).value])
  {
    var more, all := values + [px(c).value], cells + {c};
    assert px(c).value in more;
    forall v | v in more ensures exists d :: d in all && px(d) == Some(v) {
      if v in values {
        var d :| d in cells && px(d) == Some(v);
        assert d in all;
      } else {
        assert c in all;
      }
    }
  }

  lemma {:induction false} ValuesOfCells<V>(isNodata: V -> bool, px: Cell -> Option<V>, keep: Cell -> bool,
                                            list: seq<Cell>)
    ensures ValuesOf(px, CountedCells(isNodata, px, keep, list), Counted(isNodata, px, keep, list))
  {
    if list != [] {
      var front, c := list[..|list| - 1], list[|list| - 1];
      assert list == front + [c];
      ValuesOfCells(isNodata, px, keep, front);
      CellsNext(isNodata, px, keep, front, c);
      var before := CountedCells(isNodata, px, keep, front);
      if IsCounted(isNodata, px, keep, c) {
        ValuesNext(px, before, Counted(isNodata, px, keep, front), c);
      } else {
        assert before + {} == before;
      }
    }
  }

  /** The values counted are those of the pixels counted, one for each when no pixel is listed twice. */
  lemma {:induction false} OneValueACell<V>(isNodata: V -> bool, px: Cell -> Option<V>, keep: Cell -> bool,
                                            list: seq<Cell>)
    requires NoneTwice(list)
    ensures |Counted(isNodata, px, keep, list)| == |CountedCells(isNodata, px, keep, list)|
  {
    if list != [] {
      var front, c := list[..|list| - 1], list[|list| - 1];
      assert list == front + [c] && c !in front;
      OneValueACell(isNodata, px, keep, front);
      CellsNext(isNodata, px, keep, front, c);
      var before := CountedCells(isNodata, px, keep, front);
      assert before + {} == before && c !in before;
    }
  }
}
