/** Tile lists in (x, y) order: an ordered set of tiles, and sorting with duplicates dropped. */
module CellOrder {
  import opened Grids

  predicate Before(a: Cell, b: Cell) {
    a.x < b.x || (a.x == b.x && a.y < b.y)
  }

  /** Strictly increasing: how an ordered set of tiles is iterated. */
  ghost predicate Increasing(s: seq<Cell>) {
    forall i, j :: 0 <= i < j < |s| ==> Before(s[i], s[j])
  }

  /** The place of c in a list: everything before it is smaller, everything from it on is not. */
  method Place(s: seq<Cell>, c: Cell) returns (i: nat)
    requires Increasing(s)
    ensures i <= |s|
    ensures forall j :: 0 <= j < i ==> Before(s[j], c)
    ensures forall j :: i <= j < |s| ==> !Before(s[j], c)
  {
    i := 0;
    while i < |s| && Before(s[i], c)
      invariant i <= |s|
      invariant forall j :: 0 <= j < i ==> Before(s[j], c)
    {
      i := i + 1;
    }
  }

  /** Inserting into an ordered set. */
  method Insert(s: seq<Cell>, c: Cell) returns (r: seq<Cell>)
    requires Increasing(s)
    ensures Increasing(r)
    ensures forall t :: t in r <==> t in s || t == c
  {
    var i := Place(s, c);
    if i < |s| && s[i] == c {
      return s;
    }
    r := s[..i] + [c] + s[i..];
    assert s == s[..i] + s[i..];
  }

  lemma SomeMember(t: seq<Cell>)
    ensures t == [] || exists c :: c in t
  {
    assert t == [] || t[0] in t;
  }

  /** An increasing list is determined by its members. */
  lemma {:induction false} IncreasingUnique(s: seq<Cell>, t: seq<Cell>)
    requires Increasing(s) && Increasing(t)
    requires forall c :: c in s <==> c in t
    ensures s == t
    decreases |s|
  {
    if s == [] {
      SomeMember(t);
    } else {
      var a := s[|s| - 1];
      assert a in t;
      var b := t[|t| - 1];
      assert b in s;
      assert a == b;
      var front, front' := s[..|s| - 1], t[..|t| - 1];
      forall c ensures c in front <==> c in front' {
        assert c in s <==> c in front || c == a;
        assert c in t <==> c in front' || c == a;
        assert !Before(a, a);
      }
      IncreasingUnique(front, front');
    }
  }
}
