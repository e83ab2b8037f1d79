/** When two calls can block each other for some contents of the cache: on two threads exactly when two keys come in
    opposite orders in their lists, on one thread exactly when they share a key. */
module FetchCaches {
  import opened Wrappers
  import opened Arrays
  import opened TileStore
  import opened TileSource
  import opened FetchProtocol
  import opened FetchDeadlock
  import Laws = TileStoreLaws

  ghost predicate KeyBefore(keys: seq<Key>, c: Key, d: Key) {
    exists p, q :: 0 <= p < q < |keys| && keys[p] == c && keys[q] == d
  }

  /** Some two keys come in one order in `a` and in the other in `b`. */
  ghost predicate Opposed(a: seq<Key>, b: seq<Key>) {
    exists c, d :: OpposedOver(a, b, c, d)
  }

  ghost predicate OpposedOver(a: seq<Key>, b: seq<Key>, c: Key, d: Key) {
    KeyBefore(a, c, d) && KeyBefore(b, d, c)
  }

  // ---- no cache: the same order -------------------------------------------------------------

  lemma ColdKeepsBefore<V>(keys: seq<Key>, ready: seq<Entry<V>>, cold: seq<Key>, m: nat, n: nat)
    requires cold == Cold(keys, ready) && m < n < |cold|
    ensures KeyBefore(keys, cold[m], cold[n])
  {
    var p := PlaceOfCold(keys, ready, m);
    var q := PlaceOfCold(keys, ready, n);
    PlacesOrdered(keys, ready, p, q);
  }

  lemma CrossedIsOpposed(a: seq<Key>, b: seq<Key>) returns (m: nat, n: nat, x: nat, y: nat)
    requires Crossed(a, b)
    ensures m < n < |a| && x < y < |b| && a[m] == b[y] && a[n] == b[x]
  {
    m, x := FirstShared(a, b), FirstShared(b, a);
    y :| 0 <= y < |b| && b[y] == a[m];
    n :| 0 <= n < |a| && a[n] == b[x];
  }

  lemma ColdCrossedIsOpposed<V>(a: seq<Key>, b: seq<Key>, ready: seq<Entry<V>>)
    requires Crossed(Cold(a, ready), Cold(b, ready))
    ensures Opposed(a, b)
  {
    var ca, cb := Cold(a, ready), Cold(b, ready);
    var m, n, x, y := CrossedIsOpposed(ca, cb);
    ColdKeepsBefore(a, ready, ca, m, n);
    ColdKeepsBefore(b, ready, cb, x, y);
    assert OpposedOver(a, b, ca[m], ca[n]);
  }

  lemma ColdShareIsShare<V>(a: seq<Key>, b: seq<Key>, ready: seq<Entry<V>>)
    requires ShareKey(Cold(a, ready), Cold(b, ready))
    ensures ShareKey(a, b)
  {
    var k := Cold(a, ready)[FirstShared(Cold(a, ready), Cold(b, ready))];
    ColdMembers(a, ready, k);
    ColdMembers(b, ready, k);
  }

  // ---- a cache holding all but two tiles ----------------------------------------------------

  /** The tiles of `keys` as resident entries, leaving out those of `except`. */
  ghost function Stock<V>(source: Source<V>, keys: seq<Key>, except: set<Key>): seq<Entry<V>>
    requires AllDecode(source, keys)
  {
    if keys == [] then []
    else
      var front, last := Stock(source, keys[..|keys| - 1], except), keys[|keys| - 1];
      if last in except then front else front + [Entry(last, source(last).arr)]
  }

  lemma {:induction false} StockEntries<V>(source: Source<V>, keys: seq<Key>, except: set<Key>, e: Entry<V>)
    requires AllDecode(source, keys)
    ensures e in Stock(source, keys, except) <==> e.key in keys && e.key !in except && source(e.key) == Tile(e.arr)
  {
    if keys != [] {
      StockEntries(source, keys[..|keys| - 1], except, e);
      assert keys == keys[..|keys| - 1] + [keys[|keys| - 1]];
    }
  }

  lemma StockHas<V>(source: Source<V>, keys: seq<Key>, except: set<Key>, ready: seq<Entry<V>>, k: Key)
    requires AllDecode(source, keys) && ready == Stock(source, keys, except)
    ensures Has(ready, k) <==> k in keys && k !in except
  {
    if Has(ready, k) {
      var i :| 0 <= i < |ready| && ready[i].key == k;
      StockEntries(source, keys, except, ready[i]);
    }
    if k in keys && k !in except {
      StockEntries(source, keys, except, Entry(k, source(k).arr));
      assert Entry(k, source(k).arr) in ready;
    }
  }

  lemma {:induction false} StockDistinct<V>(source: Source<V>, keys: seq<Key>, except: set<Key>)
    requires AllDecode(source, keys) && DistinctKeys(keys)
    ensures Distinct(Stock(source, keys, except))
  {
    if keys != [] {
      var front, last := keys[..|keys| - 1], keys[|keys| - 1];
      StockDistinct(source, front, except);
      StockHas(source, front, except, Stock(source, front, except), last);
    }
  }

  lemma {:induction false} StockBytes<V>(source: Source<V>, keys: seq<Key>, except: set<Key>)
    requires AllDecode(source, keys)
    ensures Bytes(Stock(source, keys, except)) <= Bytes(Stock(source, keys, {}))
  {
    if keys != [] {
      var front, last := keys[..|keys| - 1], keys[|keys| - 1];
      StockBytes(source, front, except);
      BytesConcat(Stock(source, front, except), [Entry(last, source(last).arr)]);
      BytesConcat(Stock(source, front, {}), [Entry(last, source(last).arr)]);
    }
  }

  /** All tiles of the list decode and fit the cache together. */
  ghost predicate Roomy<V>(cfg: Config<V>, keys: seq<Key>) {
    AllDecode(cfg.source, keys) && Bytes(Stock(cfg.source, keys, {})) <= cfg.maxBytes
  }

  function FreshCall<V>(keys: seq<Key>): Call<V> {
    Call(keys, [], [], 0, Claiming)
  }

  /** Calls for `a` and `b` about to start over the resident tiles `ready`, each fetched once. */
  ghost function StartOver<V>(a: seq<Key>, b: seq<Key>, ready: seq<Entry<V>>): System<V> {
    System(Store(ready, map[], 0, 0, |ready|, 0), {}, 0, [FreshCall(a), FreshCall(b)])
  }

  lemma StartOverIsPair<V>(cfg: Config<V>, a: seq<Key>, b: seq<Key>, ready: seq<Entry<V>>)
    requires DistinctKeys(a) && DistinctKeys(b) && Distinct(ready) && Bytes(ready) <= cfg.maxBytes
    requires forall e | e in ready :: cfg.source(e.key) == Tile(e.arr)
    ensures Pair(cfg, StartOver(a, b, ready))
  {
  }

  lemma StockIsPair<V>(cfg: Config<V>, a: seq<Key>, b: seq<Key>, except: set<Key>, ready: seq<Entry<V>>)
    requires DistinctKeys(a) && DistinctKeys(b) && Roomy(cfg, a) && ready == Stock(cfg.source, a, except)
    ensures Pair(cfg, StartOver(a, b, ready))
  {
    StockDistinct(cfg.source, a, except);
    StockBytes(cfg.source, a, except);
    forall e | e in ready ensures cfg.source(e.key) == Tile(e.arr) {
      StockEntries(cfg.source, a, except, e);
    }
    StartOverIsPair(cfg, a, b, ready);
  }

  /** A key of the cold part in its order: keys not resident stay in the order of the list. */
  lemma BeforeInCold<V>(keys: seq<Key>, ready: seq<Entry<V>>, cold: seq<Key>, c: Key, d: Key)
    requires cold == Cold(keys, ready) && KeyBefore(keys, c, d) && !Has(ready, c) && !Has(ready, d)
    ensures KeyBefore(cold, c, d)
  {
    var p: nat, q: nat :| p < q < |keys| && keys[p] == c && keys[q] == d;
    ColdAt(keys, ready, p);
    ColdAt(keys, ready, q);
    var upToP, upToQ := Cold(keys[..p], ready), Cold(keys[..q], ready);
    assert keys[..q][p] == c && keys[..q][..p] == keys[..p];
    ColdAt(keys[..q], ready, p);
    assert |upToP| < |upToQ|;
    assert cold[|upToP|] == c && cold[|upToQ|] == d;
  }

  /** Lists sharing just `c` and `d`, in opposite orders, are crossed. */
  lemma OpposedOverTwoIsCrossed(a: seq<Key>, b: seq<Key>, c: Key, d: Key)
    requires DistinctKeys(a) && DistinctKeys(b) && OpposedOver(a, b, c, d)
    requires forall k :: k in a && k in b ==> k == c || k == d
    ensures Crossed(a, b)
  {
    FirstOfTwo(a, b, c, d);
    FirstOfTwo(b, a, d, c);
  }

  lemma FirstOfTwo(a: seq<Key>, b: seq<Key>, c: Key, d: Key)
    requires DistinctKeys(a) && KeyBefore(a, c, d) && c in b && (forall k :: k in a && k in b ==> k == c || k == d)
    ensures FirstShared(a, b) < |a| && a[FirstShared(a, b)] == c && c != d
  {
    var p, q :| 0 <= p < q < |a| && a[p] == c && a[q] == d;
    var x := FirstShared(a, b);
    assert x <= p;
    assert a[x] in a;
  }

  lemma OpposedSticks<V>(cfg: Config<V>, thread: nat -> nat, a: seq<Key>, b: seq<Key>) returns (s: System<V>)
    requires DistinctKeys(a) && DistinctKeys(b) && Roomy(cfg, a) && Opposed(a, b) && thread(0) != thread(1)
    ensures Starts(cfg, s, a, b) && Conflicting(thread, s)
  {
    var c, d :| OpposedOver(a, b, c, d);
    var ready := Stock(cfg.source, a, {c, d});
    s := StartOver(a, b, ready);
    StockIsPair(cfg, a, b, {c, d}, ready);
    StockHas(cfg.source, a, {c, d}, ready, c);
    StockHas(cfg.source, a, {c, d}, ready, d);
    var ca, cb := Cold(a, ready), Cold(b, ready);
    BeforeInCold(a, ready, ca, c, d);
    BeforeInCold(b, ready, cb, d, c);
    ColdDistinct(a, ready);
    ColdDistinct(b, ready);
    forall k | k in ca && k in cb ensures k == c || k == d {
      ColdMembers(a, ready, k);
      StockHas(cfg.source, a, {c, d}, ready, k);
    }
    OpposedOverTwoIsCrossed(ca, cb, c, d);
  }

  lemma {:induction false} ColdOverEmpty<V>(keys: seq<Key>)
    ensures Cold<V>(keys, []) == keys
  {
    if keys != [] {
      ColdOverEmpty<V>(keys[..|keys| - 1]);
    }
  }

  lemma SharedSticks<V>(cfg: Config<V>, thread: nat -> nat, a: seq<Key>, b: seq<Key>) returns (s: System<V>)
    requires DistinctKeys(a) && DistinctKeys(b) && ShareKey(a, b) && thread(0) == thread(1)
    ensures Starts(cfg, s, a, b) && Conflicting(thread, s)
  {
    s := StartOver(a, b, []);
    StartOverIsPair(cfg, a, b, []);
    ColdOverEmpty<V>(a);
    ColdOverEmpty<V>(b);
  }

  // ---- exactly when some cache lets them stick ----------------------------------------------

  /** Two calls for `a` and `b` about to start, over some cache. */
  ghost predicate Starts<V>(cfg: Config<V>, s: System<V>, a: seq<Key>, b: seq<Key>) {
    Pair(cfg, s) && s.calls[0].keys == a && s.calls[1].keys == b
  }

  ghost predicate SomeCacheSticks<V(!new)>(cfg: Config<V>, thread: nat -> nat, a: seq<Key>, b: seq<Key>) {
    exists s :: Starts(cfg, s, a, b) && CanStick(cfg, thread, s)
  }

  ghost predicate CanConflict(thread: nat -> nat, a: seq<Key>, b: seq<Key>) {
    if thread(0) == thread(1) then ShareKey(a, b) else Opposed(a, b)
  }

  /** Lists that agree on the order of their shared keys never stick, whatever a cache of any size holds. */
  lemma StuckMeansOpposed<V(!new)>(cfg: Config<V>, thread: nat -> nat, s: System<V>)
    requires Pair(cfg, s) && CanStick(cfg, thread, s)
    ensures CanConflict(thread, s.calls[0].keys, s.calls[1].keys)
  {
    CanStickIff(cfg, thread, s);
    if thread(0) == thread(1) {
      ColdShareIsShare(s.calls[0].keys, s.calls[1].keys, s.store.ready);
    } else {
      ColdCrossedIsOpposed(s.calls[0].keys, s.calls[1].keys, s.store.ready);
    }
  }

  /** Some contents of a cache that has room for the tiles of `a` let calls for `a` and `b` block each other: on two
      threads if two keys come in opposite orders, on one thread if they share a key. */
  lemma SomeCacheSticksIff<V(!new)>(cfg: Config<V>, thread: nat -> nat, a: seq<Key>, b: seq<Key>)
    requires DistinctKeys(a) && DistinctKeys(b) && Roomy(cfg, a)
    ensures SomeCacheSticks(cfg, thread, a, b) <==> CanConflict(thread, a, b)
  {
    if SomeCacheSticks(cfg, thread, a, b) {
      var s :| Starts(cfg, s, a, b) && CanStick(cfg, thread, s);
      StuckMeansOpposed(cfg, thread, s);
    } else if CanConflict(thread, a, b) {
      var s := ConflictingStart(cfg, thread, a, b);
      CanStickIff(cfg, thread, s);
    }
  }

  lemma ConflictingStart<V>(cfg: Config<V>, thread: nat -> nat, a: seq<Key>, b: seq<Key>) returns (s: System<V>)
    requires DistinctKeys(a) && DistinctKeys(b) && Roomy(cfg, a) && CanConflict(thread, a, b)
    ensures Starts(cfg, s, a, b) && Conflicting(thread, s)
  {
    if thread(0) == thread(1) {
      s := SharedSticks(cfg, thread, a, b);
    } else {
      s := OpposedSticks(cfg, thread, a, b);
    }
  }
}
