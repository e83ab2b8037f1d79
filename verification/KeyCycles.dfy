/** Claim lists and rankings: either one ranking makes every list ascend, or some keys bar each other in a ring, each
    claimed before the next by a list of its own. */
module KeyCycles {
  import opened TileStore
  import opened FetchProtocol
  import opened FetchProgress
  import opened FetchCaches

  /** Some list has k before l. */
  ghost predicate Edge(lists: seq<seq<Key>>, k: Key, l: Key) {
    exists i :: 0 <= i < |lists| && KeyBefore(lists[i], k, l)
  }

  ghost predicate Ranked(lists: seq<seq<Key>>, rank: Key -> int) {
    forall i :: 0 <= i < |lists| ==> Ascending(lists[i], rank)
  }

  ghost predicate HasNext(lists: seq<seq<Key>>, s: set<Key>, k: Key) {
    exists l :: l in s && Edge(lists, k, l)
  }

  /** Every key of the set comes before another of the set in some list. */
  ghost predicate Closed(lists: seq<seq<Key>>, s: set<Key>) {
    s != {} && forall k {:trigger HasNext(lists, s, k)} :: k in s ==> HasNext(lists, s, k)
  }

  // ---- a ranking or a closed set ------------------------------------------------------------

  ghost predicate RanksWithin(lists: seq<seq<Key>>, s: set<Key>, rank: Key -> int, bound: int) {
    && (forall k :: k in s ==> rank(k) < bound)
    && forall k, l :: k in s && l in s && Edge(lists, k, l) ==> rank(k) < rank(l)
  }

  /** Ranking from the top: a key with nothing after it goes last. */
  lemma {:induction false} RankOrClosed(lists: seq<seq<Key>>, s: set<Key>)
      returns (rank: Key -> int, bound: int, closed: set<Key>)
    ensures closed != {} ==> Closed(lists, closed)
    ensures closed == {} ==> RanksWithin(lists, s, rank, bound)
    decreases |s|
  {
    rank, bound, closed := (k: Key) => 0, 1, {};
    if s != {} {
      if Closed(lists, s) {
        closed := s;
      } else {
        var k :| k in s && !HasNext(lists, s, k);
        var r, b, c := RankOrClosed(lists, s - {k});
        closed := c;
        rank, bound := (x: Key) => if x == k then b else r(x), b + 1;
        if c == {} {
          LastFits(lists, s, k, r, b, rank);
        }
      }
    }
  }

  lemma LastFits(lists: seq<seq<Key>>, s: set<Key>, k: Key, r: Key -> int, b: int, rank: Key -> int)
    requires k in s && !HasNext(lists, s, k) && RanksWithin(lists, s - {k}, r, b)
    requires forall x :: rank(x) == if x == k then b else r(x)
    ensures RanksWithin(lists, s, rank, b + 1)
  {
    forall x, y | x in s && y in s && Edge(lists, x, y) ensures rank(x) < rank(y) {
      if y != k {
        assert y in s - {k};
      }
    }
  }

  ghost function AllKeys(lists: seq<seq<Key>>): set<Key> {
    set i, p | 0 <= i < |lists| && 0 <= p < |lists[i]| :: lists[i][p]
  }

  lemma RanksAll(lists: seq<seq<Key>>, rank: Key -> int, bound: int)
    requires RanksWithin(lists, AllKeys(lists), rank, bound)
    ensures Ranked(lists, rank)
  {
    forall i, p, q | 0 <= i < |lists| && 0 <= p < q < |lists[i]| ensures rank(lists[i][p]) < rank(lists[i][q]) {
      assert lists[i][p] in AllKeys(lists) && lists[i][q] in AllKeys(lists);
      assert KeyBefore(lists[i], lists[i][p], lists[i][q]);
      assert Edge(lists, lists[i][p], lists[i][q]);
    }
  }

  /** Without a ranking there is a closed set. */
  lemma UnrankedIsClosed(lists: seq<seq<Key>>) returns (s: set<Key>)
    requires !exists rank: Key -> int :: Ranked(lists, rank)
    ensures Closed(lists, s)
  {
    var rank, bound, c := RankOrClosed(lists, AllKeys(lists));
    s := c;
    if c == {} {
      RanksAll(lists, rank, bound);
    }
  }

  // ---- a smallest closed set ----------------------------------------------------------------

  ghost predicate Smallest(lists: seq<seq<Key>>, s: set<Key>) {
    Closed(lists, s) && forall u :: Closed(lists, u) ==> |s| <= |u|
  }

  lemma {:induction false} SmallestExists(lists: seq<seq<Key>>, s: set<Key>) returns (m: set<Key>)
    requires Closed(lists, s)
    ensures Smallest(lists, m)
    decreases |s|
  {
    m := s;
    if u :| Closed(lists, u) && |u| < |s| {
      m := SmallestExists(lists, u);
    }
  }

  ghost function ImageOf(s: set<Key>, f: Key -> Key): set<Key> {
    set k | k in s :: f(k)
  }

  lemma {:induction false} ImageSize(s: set<Key>, f: Key -> Key)
    ensures |ImageOf(s, f)| <= |s|
  {
    if s != {} {
      var k :| k in s;
      ImageSize(s - {k}, f);
      assert ImageOf(s, f) == ImageOf(s - {k}, f) + {f(k)};
    }
  }

  lemma SubsetSize(s: set<Key>, t: set<Key>)
    requires s <= t
    ensures |s| <= |t| && (|s| == |t| ==> s == t)
  {
    assert t == s + (t - s);
  }

  ghost predicate LeadsOn(lists: seq<seq<Key>>, s: set<Key>, f: Key -> Key, k: Key) {
    f(k) in s && Edge(lists, k, f(k))
  }

  /** f leads from each key of the set to a later one. */
  ghost predicate Leads(lists: seq<seq<Key>>, s: set<Key>, f: Key -> Key) {
    forall k {:trigger LeadsOn(lists, s, f, k)} :: k in s ==> LeadsOn(lists, s, f, k)
  }

  lemma ImageClosed(lists: seq<seq<Key>>, s: set<Key>, f: Key -> Key)
    requires s != {} && Leads(lists, s, f)
    ensures Closed(lists, ImageOf(s, f))
  {
    var image := ImageOf(s, f);
    var k :| k in s;
    assert f(k) in image;
    forall x | x in image ensures HasNext(lists, image, x) {
      var y :| y in s && x == f(y);
      assert LeadsOn(lists, s, f, y);
      assert LeadsOn(lists, s, f, x);
      assert f(x) in image;
    }
  }

  lemma SmallestSize(lists: seq<seq<Key>>, s: set<Key>, u: set<Key>)
    requires Smallest(lists, s) && Closed(lists, u)
    ensures |s| <= |u|
  {
  }

  lemma ImageSplit(s: set<Key>, f: Key -> Key, k: Key)
    requires k in s
    ensures ImageOf(s, f) == ImageOf(s - {k}, f) + {f(k)}
  {
  }

  lemma ImageLoses(s: set<Key>, f: Key -> Key, k: Key)
    requires k in s && f(k) in ImageOf(s - {k}, f)
    ensures |ImageOf(s, f)| < |s|
  {
    ImageSplit(s, f, k);
    ImageSize(s - {k}, f);
    assert ImageOf(s - {k}, f) + {f(k)} == ImageOf(s - {k}, f);
  }

  /** In a smallest closed set no two keys lead to the same one. */
  lemma LeadsApart(lists: seq<seq<Key>>, s: set<Key>, f: Key -> Key, k: Key)
    requires Smallest(lists, s) && Leads(lists, s, f) && k in s
    ensures f(k) !in ImageOf(s - {k}, f)
  {
    if f(k) in ImageOf(s - {k}, f) {
      ImageLoses(s, f, k);
      ImageClosed(lists, s, f);
      SmallestSize(lists, s, ImageOf(s, f));
    }
  }

  ghost function NextOf(lists: seq<seq<Key>>, s: set<Key>, k: Key): (l: Key)
    requires HasNext(lists, s, k)
    ensures l in s && Edge(lists, k, l)
  {
    var l :| l in s && Edge(lists, k, l);
    l
  }

  /** Leading k elsewhere leaves out what it led to before. */
  lemma LeadElsewhere(s: set<Key>, f: Key -> Key, g: Key -> Key, k: Key)
    requires k in s && f(k) in s && f(k) !in ImageOf(s - {k}, f) && g(k) != f(k)
    requires forall x :: x in s ==> g(x) in s && (x != k ==> g(x) == f(x))
    ensures |ImageOf(s, g)| < |s|
  {
    ImageSplit(s, g, k);
    assert ImageOf(s - {k}, f) == ImageOf(s - {k}, g);
    SubsetSize(ImageOf(s, g), s - {f(k)});
  }

  ghost function LeadingTo(lists: seq<seq<Key>>, s: set<Key>, k: Key, l: Key): Key -> Key {
    (x: Key) => if x == k then l else if HasNext(lists, s, x) then NextOf(lists, s, x) else x
  }

  lemma LeadingToLeads(lists: seq<seq<Key>>, s: set<Key>, k: Key, l: Key)
    requires Closed(lists, s) && k in s && l in s && Edge(lists, k, l)
    ensures Leads(lists, s, LeadingTo(lists, s, k, l))
  {
    var f := LeadingTo(lists, s, k, l);
    forall x | x in s ensures LeadsOn(lists, s, f, x) {
      assert HasNext(lists, s, x);
    }
  }

  /** In a smallest closed set only one key of it comes after each. */
  lemma UniqueNext(lists: seq<seq<Key>>, s: set<Key>, k: Key, l: Key, l': Key)
    requires Smallest(lists, s) && k in s && l in s && l' in s && Edge(lists, k, l) && Edge(lists, k, l')
    ensures l == l'
  {
    if l != l' {
      var f, g := LeadingTo(lists, s, k, l), LeadingTo(lists, s, k, l');
      LeadingToLeads(lists, s, k, l);
      LeadingToLeads(lists, s, k, l');
      LeadsApart(lists, s, f, k);
      forall x | x in s ensures g(x) in s {
        assert LeadsOn(lists, s, g, x);
      }
      LeadElsewhere(s, f, g, k);
      ImageClosed(lists, s, g);
      SmallestSize(lists, s, ImageOf(s, g));
    }
  }

  // ---- the ring -----------------------------------------------------------------------------

  /** List i has k, then another key of the set at position q, and no further key of the set before that. */
  ghost predicate Bars(lists: seq<seq<Key>>, s: set<Key>, k: Key, i: nat, q: nat) {
    && i < |lists| && q < |lists[i]| && lists[i][q] in s && k in lists[i][..q]
    && forall x :: x in lists[i][..q] && x in s ==> x == k
  }

  ghost predicate BarredAt(lists: seq<seq<Key>>, s: set<Key>, k: Key, place: (nat, nat)) {
    Bars(lists, s, k, place.0, place.1)
  }

  /** The plan gives the two keys to different lists. */
  ghost predicate Apart(plan: map<Key, (nat, nat)>, k: Key, l: Key) {
    k in plan && l in plan && plan[k].0 != plan[l].0
  }

  /** Each key of the set is barred from the next by a list of its own. */
  ghost predicate KeyRing(lists: seq<seq<Key>>, s: set<Key>, plan: map<Key, (nat, nat)>) {
    && s != {} && plan.Keys == s
    && (forall k {:trigger BarredAt(lists, s, k, plan[k])} :: k in s ==> BarredAt(lists, s, k, plan[k]))
    && forall k, l {:trigger Apart(plan, k, l)} :: k in s && l in s && k != l ==> Apart(plan, k, l)
  }

  ghost predicate AllDistinct(lists: seq<seq<Key>>) {
    forall i :: 0 <= i < |lists| ==> DistinctKeys(lists[i])
  }

  /** Two keys of a smallest closed set in one list follow one another in the ring. */
  lemma InListIsNext(lists: seq<seq<Key>>, s: set<Key>, i: nat, p: nat, q: nat, l: Key)
    requires Smallest(lists, s) && i < |lists| && p < q < |lists[i]| && lists[i][p] in s && lists[i][q] in s
    requires l in s && Edge(lists, lists[i][p], l)
    ensures lists[i][q] == l
  {
    assert KeyBefore(lists[i], lists[i][p], lists[i][q]);
    assert Edge(lists, lists[i][p], lists[i][q]);
    UniqueNext(lists, s, lists[i][p], lists[i][q], l);
  }

  /** Of a smallest closed set only one key comes before another in one list. */
  lemma OneBefore(lists: seq<seq<Key>>, s: set<Key>, i: nat, x: nat, p: nat, q: nat)
    requires Smallest(lists, s) && AllDistinct(lists) && i < |lists|
    requires x < q < |lists[i]| && p < q
    requires lists[i][x] in s && lists[i][p] in s && lists[i][q] in s
    ensures x == p
  {
    if x != p {
      var list := lists[i];
      var a, b := if x < p then x else p, if x < p then p else x;
      assert list[b] != list[q];
      assert KeyBefore(list, list[a], list[q]);
      assert Edge(lists, list[a], list[q]);
      InListIsNext(lists, s, i, a, b, list[q]);
    }
  }

  lemma BarExists(lists: seq<seq<Key>>, s: set<Key>, k: Key) returns (i: nat, q: nat)
    requires Smallest(lists, s) && AllDistinct(lists) && k in s
    ensures Bars(lists, s, k, i, q)
  {
    assert HasNext(lists, s, k);
    var l := NextOf(lists, s, k);
    i :| i < |lists| && KeyBefore(lists[i], k, l);
    var p: nat, q': nat :| p < q' < |lists[i]| && lists[i][p] == k && lists[i][q'] == l;
    q := q';
    assert lists[i][..q][p] == k;
    forall x | x in lists[i][..q] && x in s ensures x == k {
      var y: nat :| y < q && lists[i][y] == x;
      OneBefore(lists, s, i, y, p, q);
    }
  }

  /** One list does not bar two keys. */
  lemma BarsOne(lists: seq<seq<Key>>, s: set<Key>, i: nat, k: Key, q: nat, l: Key, r: nat)
    requires Smallest(lists, s) && AllDistinct(lists) && k in s && l in s
    requires Bars(lists, s, k, i, q) && Bars(lists, s, l, i, r)
    ensures k == l
  {
    var p: nat :| p < q && lists[i][p] == k;
    var o: nat :| o < r && lists[i][o] == l;
    if o < q {
      OneBefore(lists, s, i, o, p, q);
    } else {
      OneBefore(lists, s, i, p, o, r);
    }
  }

  ghost predicate PlanOf(lists: seq<seq<Key>>, s: set<Key>, part: set<Key>, plan: map<Key, (nat, nat)>) {
    && plan.Keys == part
    && forall k {:trigger BarredAt(lists, s, k, plan[k])} :: k in part ==> BarredAt(lists, s, k, plan[k])
  }

  lemma {:induction false} PlanFor(lists: seq<seq<Key>>, s: set<Key>, part: set<Key>)
      returns (plan: map<Key, (nat, nat)>)
    requires Smallest(lists, s) && AllDistinct(lists) && part <= s
    ensures PlanOf(lists, s, part, plan)
    decreases |part|
  {
    if part == {} {
      plan := map[];
    } else {
      var k :| k in part;
      var rest := PlanFor(lists, s, part - {k});
      var i, q := BarExists(lists, s, k);
      plan := rest[k := (i, q)];
      PlanGrows(lists, s, part, k, rest, (i, q));
    }
  }

  lemma PlanGrows(lists: seq<seq<Key>>, s: set<Key>, part: set<Key>, k: Key, rest: map<Key, (nat, nat)>,
                  place: (nat, nat))
    requires k in part && PlanOf(lists, s, part - {k}, rest) && BarredAt(lists, s, k, place)
    ensures PlanOf(lists, s, part, rest[k := place])
  {
    forall x | x in part ensures BarredAt(lists, s, x, rest[k := place][x]) {
      assert x != k ==> x in part - {k} && BarredAt(lists, s, x, rest[x]);
    }
  }

  lemma PlacesApart(lists: seq<seq<Key>>, s: set<Key>, plan: map<Key, (nat, nat)>, k: Key, l: Key)
    requires Smallest(lists, s) && AllDistinct(lists) && PlanOf(lists, s, s, plan) && k in s && l in s && k != l
    ensures plan[k].0 != plan[l].0
  {
    assert BarredAt(lists, s, k, plan[k]) && BarredAt(lists, s, l, plan[l]);
    if plan[k].0 == plan[l].0 {
      BarsOne(lists, s, plan[k].0, k, plan[k].1, l, plan[l].1);
    }
  }

  /** Without a ranking, some keys bar each other in a ring. */
  lemma UnrankedHasRing(lists: seq<seq<Key>>) returns (s: set<Key>, plan: map<Key, (nat, nat)>)
    requires AllDistinct(lists) && !exists rank: Key -> int :: Ranked(lists, rank)
    ensures KeyRing(lists, s, plan)
  {
    var c := UnrankedIsClosed(lists);
    s := SmallestExists(lists, c);
    plan := PlanFor(lists, s, s);
    forall k, l | k in s && l in s && k != l ensures Apart(plan, k, l) {
      PlacesApart(lists, s, plan, k, l);
    }
  }
}
