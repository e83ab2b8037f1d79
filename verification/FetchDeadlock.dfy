/** When two calls can block each other for good, whatever the cache holds at the start. On two threads: exactly when
    the first key they share and do not find resident is not the same in the two claim orders. On one thread: exactly
    when they share such a key. */
module FetchDeadlock {
  import opened Wrappers
  import opened Arrays
  import opened TileStore
  import opened TileSource
  import opened FetchProtocol
  import opened FetchInvariant
  import opened FetchProgress
  import opened FetchThreads
  import opened FetchClaims
  import Laws = TileStoreLaws

  /** Index of the first key of `a` that is also in `b`; |a| if there is none. */
  function FirstShared(a: seq<Key>, b: seq<Key>): (i: nat)
    ensures i <= |a|
    ensures forall p :: 0 <= p < i ==> a[p] !in b
    ensures i < |a| ==> a[i] in b
  {
    if a == [] then 0 else if a[0] in b then 0 else 1 + FirstShared(a[1..], b)
  }

  predicate ShareKey(a: seq<Key>, b: seq<Key>) {
    FirstShared(a, b) < |a|
  }

  /** The two lists share keys, but do not agree on which shared key comes first. */
  predicate Crossed(a: seq<Key>, b: seq<Key>) {
    && FirstShared(a, b) < |a| && FirstShared(b, a) < |b|
    && a[FirstShared(a, b)] != b[FirstShared(b, a)]
  }

  // ---- the keys a call will not find --------------------------------------------------------

  /** The keys of a list that are not resident. */
  ghost function Cold<V>(keys: seq<Key>, ready: seq<Entry<V>>): seq<Key> {
    if keys == [] then []
    else
      var front, last := Cold(keys[..|keys| - 1], ready), keys[|keys| - 1];
      if Has(ready, last) then front else front + [last]
  }

  lemma {:induction false} ColdMembers<V>(keys: seq<Key>, ready: seq<Entry<V>>, k: Key)
    ensures k in Cold(keys, ready) <==> k in keys && !Has(ready, k)
  {
    if keys != [] {
      ColdMembers(keys[..|keys| - 1], ready, k);
      assert keys == keys[..|keys| - 1] + [keys[|keys| - 1]];
    }
  }

  /** A key that is not resident keeps its place behind those before it. */
  lemma {:induction false} ColdAt<V>(keys: seq<Key>, ready: seq<Entry<V>>, p: nat)
    requires p < |keys| && !Has(ready, keys[p])
    ensures var m := |Cold(keys[..p], ready)|;
            && m < |Cold(keys, ready)| && Cold(keys, ready)[m] == keys[p]
            && Cold(keys, ready)[..m] == Cold(keys[..p], ready)
    decreases |keys|
  {
    var front := keys[..|keys| - 1];
    if p < |front| {
      ColdAt(front, ready, p);
      assert front[..p] == keys[..p];
    }
  }

  /** Where a key of the cold part stands in the whole list. */
  lemma {:induction false} PlaceOfCold<V>(keys: seq<Key>, ready: seq<Entry<V>>, m: nat) returns (p: nat)
    requires m < |Cold(keys, ready)|
    ensures p < |keys| && keys[p] == Cold(keys, ready)[m] && Cold(keys[..p], ready) == Cold(keys, ready)[..m]
  {
    var front := keys[..|keys| - 1];
    if m < |Cold(front, ready)| {
      p := PlaceOfCold(front, ready, m);
      assert front[..p] == keys[..p];
    } else {
      p := |keys| - 1;
    }
  }

  lemma {:induction false} ColdGrows<V>(keys: seq<Key>, ready: seq<Entry<V>>, p: nat, q: nat)
    requires p <= q <= |keys|
    ensures |Cold(keys[..p], ready)| <= |Cold(keys[..q], ready)|
  {
    if p < q {
      assert keys[..q][..q - 1] == keys[..q - 1];
      ColdGrows(keys, ready, p, q - 1);
    }
  }

  lemma PlacesOrdered<V>(keys: seq<Key>, ready: seq<Entry<V>>, p: nat, q: nat)
    requires p <= |keys| && q <= |keys| && |Cold(keys[..p], ready)| < |Cold(keys[..q], ready)|
    ensures p < q
  {
    if q <= p {
      ColdGrows(keys, ready, q, p);
    }
  }

  lemma {:induction false} ColdDistinct<V>(keys: seq<Key>, ready: seq<Entry<V>>)
    requires DistinctKeys(keys)
    ensures DistinctKeys(Cold(keys, ready))
  {
    if keys != [] {
      var front, last := keys[..|keys| - 1], keys[|keys| - 1];
      ColdDistinct(front, ready);
      ColdMembers(front, ready, last);
    }
  }

  // ---- while nobody has published -----------------------------------------------------------

  ghost predicate Unpublished(pc: Pc) {
    InClaimPhase(pc) || pc.Fetching?
  }

  /** Call c owes exactly those keys claimed so far that were not resident. */
  ghost predicate OwesCold<V>(c: Call<V>, ready: seq<Entry<V>>) {
    && Shape(c) && c.settled == 0
    && forall p {:trigger p in c.misses} :: 0 <= p < |c.out| ==> (p in c.misses <==> !Has(ready, c.keys[p]))
  }

  ghost predicate StillCold<V>(c: Call<V>, ready: seq<Entry<V>>) {
    Unpublished(c.pc) ==> OwesCold(c, ready)
  }

  lemma GrantKeepsCold<V>(c: Call<V>, d: Call<V>, ready: seq<Entry<V>>)
    requires OwesCold(c, ready) && |c.out| < |c.keys| && !Has(ready, c.keys[|c.out|]) && Shape(d)
    requires d == c.(out := c.out + [None], misses := c.misses + [|c.out|])
    ensures OwesCold(d, ready)
  {
    forall p {:trigger p in d.misses} | 0 <= p < |d.out| ensures p in d.misses <==> !Has(ready, d.keys[p]) {
      assert p in d.misses <==> p in c.misses || p == |c.out|;
    }
  }

  lemma HitKeepsCold<V>(c: Call<V>, arr: Array<V>, d: Call<V>, ready: seq<Entry<V>>)
    requires OwesCold(c, ready) && |c.out| < |c.keys| && Has(ready, c.keys[|c.out|]) && Shape(d)
    requires d == c.(out := c.out + [Some(arr)])
    ensures OwesCold(d, ready)
  {
    assert |c.out| !in c.misses;
  }

  lemma ClaimKeepsCold<V>(s: Store<V>, c: Call<V>, t: Store<V>, o: Outcome<V>, ready: seq<Entry<V>>)
    requires Valid(s) && Shape(c) && c.pc.Claiming? && |c.out| < |c.keys|
    requires SameResident(s.ready, ready) && OwesCold(c, ready)
    requires TryClaim(s, c.keys[|c.out|]) == (t, o) && Shape(AfterClaim(c, o))
    ensures SameResident(t.ready, ready) && OwesCold(AfterClaim(c, o), ready)
  {
    Laws.TryClaimEffect(s, c.keys[|c.out|]);
    match o
    case Hit(arr) => HitKeepsCold(c, arr, AfterClaim(c, o), ready);
    case Mine => GrantKeepsCold(c, AfterClaim(c, o), ready);
    case Busy(_) =>
  }

  lemma StepKeepsCold<V>(cfg: Config<V>, s: System<V>, i: nat, fail: bool, t: System<V>, ready: seq<Entry<V>>)
    requires Inv(cfg, s) && Inv(cfg, t) && StepOf(cfg, s, i, fail, t) && StillCold(s.calls[i], ready)
    requires SameResident(s.store.ready, ready) && Unpublished(t.calls[i].pc)
    ensures Unpublished(s.calls[i].pc) && SameResident(t.store.ready, ready) && OwesCold(t.calls[i], ready)
  {
    var c := s.calls[i];
    assert Shape(c) && Shape(t.calls[i]);
    if c.pc.Claiming? && |c.out| < |c.keys| {
      var (store, outcome) := TryClaim(s.store, c.keys[|c.out|]);
      ClaimKeepsCold(s.store, c, store, outcome, ready);
    }
  }

  ghost predicate BothUnpublished<V>(s: System<V>) {
    |s.calls| == 2 && Unpublished(s.calls[0].pc) && Unpublished(s.calls[1].pc)
  }

  /** While neither of two calls has published, the resident tiles are those of the start and each call owes exactly the
      others it claimed. */
  ghost predicate PairCold<V>(s: System<V>, ready: seq<Entry<V>>) {
    BothUnpublished(s) ==>
      SameResident(s.store.ready, ready) && OwesCold(s.calls[0], ready) && OwesCold(s.calls[1], ready)
  }

  lemma StepBackUnpublished<V>(cfg: Config<V>, s: System<V>, i: nat, fail: bool, t: System<V>)
    requires StepOf(cfg, s, i, fail, t) && BothUnpublished(t)
    ensures BothUnpublished(s)
  {
  }

  lemma StepKeepsPairCold<V>(cfg: Config<V>, s: System<V>, t: System<V>, ready: seq<Entry<V>>)
    requires Inv(cfg, s) && Inv(cfg, t) && Step(cfg, s, t) && PairCold(s, ready)
    ensures PairCold(t, ready)
  {
    var i: nat, fail :| StepOf(cfg, s, i, fail, t);
    if BothUnpublished(t) {
      StepBackUnpublished(cfg, s, i, fail, t);
      StepMoves(cfg, s, i, fail, t);
      StepKeepsCold(cfg, s, i, fail, t, ready);
    }
  }

  lemma NextKeepsPairCold<V>(cfg: Config<V>, run: seq<System<V>>, n: nat, ready: seq<Entry<V>>)
    requires Run(cfg, run) && n + 1 < |run| && PairCold(run[n], ready)
    ensures PairCold(run[n + 1], ready)
  {
    RunKeepsInv(cfg, run, n);
    RunKeepsInv(cfg, run, n + 1);
    assert StepsAt(cfg, run, n);
    StepKeepsPairCold(cfg, run[n], run[n + 1], ready);
  }

  lemma InitIsPairCold<V>(cfg: Config<V>, s: System<V>)
    requires Init(cfg, s)
    ensures PairCold(s, s.store.ready)
  {
    if |s.calls| == 2 {
      assert Fresh(s.calls[0]) && Fresh(s.calls[1]);
    }
  }

  lemma {:induction false} RunKeepsPairCold<V>(cfg: Config<V>, run: seq<System<V>>, n: nat)
    requires Run(cfg, run) && n < |run|
    ensures PairCold(run[n], run[0].store.ready)
  {
    if n == 0 {
      InitIsPairCold(cfg, run[0]);
    } else {
      RunKeepsPairCold(cfg, run, n - 1);
      NextKeepsPairCold(cfg, run, n - 1, run[0].store.ready);
    }
  }

  lemma OwesColdPrefix<V>(c: Call<V>, ready: seq<Entry<V>>, k: Key)
    requires OwesCold(c, ready)
    ensures k in Owed(c) <==> k in c.keys[..|c.out|] && !Has(ready, k)
  {
    if k in Owed(c) {
      var m :| c.settled <= m < |c.misses| && k == c.keys[c.misses[m]];
      assert c.misses[m] in c.misses;
      assert c.keys[..|c.out|][c.misses[m]] == k;
    }
    if k in c.keys[..|c.out|] && !Has(ready, k) {
      var p :| 0 <= p < |c.out| && c.keys[p] == k;
      assert p in c.misses;
      var m :| 0 <= m < |c.misses| && c.misses[m] == p;
      assert c.keys[c.misses[m]] == k;
    }
  }

  // ---- stuck implies crossed ----------------------------------------------------------------

  /** Disjoint prefixes, each followed by a key of the other: the orders are crossed. */
  lemma PrefixesCross(a: seq<Key>, b: seq<Key>, p: nat, q: nat)
    requires p < |a| && q < |b|
    requires a[p] in b[..q] && b[q] in a[..p]
    requires forall k :: k in a[..p] ==> k !in b[..q]
    ensures Crossed(a, b)
  {
    var x, y := FirstShared(a, b), FirstShared(b, a);
    var m :| 0 <= m < p && a[m] == b[q];
    var n :| 0 <= n < q && b[n] == a[p];
    assert x <= m && y <= n;
    assert a[..p][x] == a[x] && b[..q][y] == b[y];
    assert a[x] in a[..p] && b[y] in b[..q];
  }

  /** The same with what is resident left out. */
  lemma ColdPrefixesCross<V>(a: seq<Key>, b: seq<Key>, p: nat, q: nat, ready: seq<Entry<V>>)
    requires p < |a| && q < |b| && !Has(ready, a[p]) && !Has(ready, b[q])
    requires a[p] in b[..q] && b[q] in a[..p]
    requires forall k :: k in a[..p] && !Has(ready, k) ==> k !in b[..q]
    ensures Crossed(Cold(a, ready), Cold(b, ready))
  {
    ColdAt(a, ready, p);
    ColdAt(b, ready, q);
    ColdMembers(b[..q], ready, a[p]);
    ColdMembers(a[..p], ready, b[q]);
    var x, y := Cold(a[..p], ready), Cold(b[..q], ready);
    forall k | k in x ensures k !in y {
      ColdMembers(a[..p], ready, k);
      ColdMembers(b[..q], ready, k);
    }
    PrefixesCross(Cold(a, ready), Cold(b, ready), |x|, |y|);
  }

  /** Call i waits for a key that call j owes. */
  ghost predicate WaitsFor<V>(s: System<V>, i: nat, j: nat) {
    && i < |s.calls| && j < |s.calls| && Shape(s.calls[i]) && Shape(s.calls[j])
    && s.calls[i].pc.Waiting? && |s.calls[i].out| < |s.calls[i].keys|
    && s.calls[i].keys[|s.calls[i].out|] in Owed(s.calls[j])
  }

  /** A call that is not enabled waits, or is finished. */
  lemma DisabledWaits<V>(s: System<V>, i: nat)
    requires i < |s.calls| && !Enabled(s, i)
    ensures s.calls[i].pc.Waiting? || Finished(s.calls[i].pc)
  {
  }

  lemma WaitsForOwner<V>(cfg: Config<V>, s: System<V>, i: nat) returns (k: nat)
    requires Inv(cfg, s) && i < |s.calls| && s.calls[i].pc.Waiting? && Stuck(s)
    ensures k != i && WaitsFor(s, i, k) && !Finished(s.calls[k].pc)
  {
    assert !Enabled(s, i);
    k := OwnerOfAwaited(cfg, s, i);
    DisabledWaits(s, k);
    OwedIsNotAwaited(s.calls[i]);
  }

  /** In a stuck state of two calls on two threads each waits for a key the other owes. */
  lemma StuckPairWaitsCrosswise<V>(cfg: Config<V>, s: System<V>)
    requires Inv(cfg, s) && |s.calls| == 2 && Stuck(s)
    ensures WaitsFor(s, 0, 1) && WaitsFor(s, 1, 0)
  {
    var u: nat :| u < |s.calls| && !Finished(s.calls[u].pc);
    DisabledWaits(s, u);
    var k := WaitsForOwner(cfg, s, u);
    DisabledWaits(s, k);
    var u' := WaitsForOwner(cfg, s, k);
    assert u + k == 1 && u' == u;
  }

  lemma CrosswiseIsCrossed<V>(cfg: Config<V>, s: System<V>, ready: seq<Entry<V>>)
    requires Inv(cfg, s) && |s.calls| == 2 && WaitsFor(s, 0, 1) && WaitsFor(s, 1, 0) && PairCold(s, ready)
    ensures Crossed(Cold(s.calls[0].keys, ready), Cold(s.calls[1].keys, ready))
  {
    var c, d := s.calls[0], s.calls[1];
    OwesColdPrefix(d, ready, c.keys[|c.out|]);
    OwesColdPrefix(c, ready, d.keys[|d.out|]);
    forall k | k in c.keys[..|c.out|] && !Has(ready, k) ensures k !in d.keys[..|d.out|] {
      OwesColdPrefix(c, ready, k);
      OwesColdPrefix(d, ready, k);
      assert OwedBy(s.calls)[0] !! OwedBy(s.calls)[1];
    }
    ColdPrefixesCross(c.keys, d.keys, |c.out|, |d.out|, ready);
  }

  /** If two calls on two threads get stuck, the claim orders of their keys not resident at the start are crossed. */
  lemma StuckMeansCrossed<V>(cfg: Config<V>, run: seq<System<V>>)
    requires Run(cfg, run) && |run[0].calls| == 2 && Stuck(run[|run| - 1])
    ensures Crossed(Cold(run[0].calls[0].keys, run[0].store.ready), Cold(run[0].calls[1].keys, run[0].store.ready))
  {
    var n := |run| - 1;
    RunKeepsInv(cfg, run, n);
    RunKeepsKeys(cfg, run, n);
    RunKeepsPairCold(cfg, run, n);
    StuckPairWaitsCrosswise(cfg, run[n]);
    CrosswiseIsCrossed(cfg, run[n], run[0].store.ready);
  }

  // ---- one thread ---------------------------------------------------------------------------

  /** Beside a blocked waiter the owner of its key, on the same thread, is awaiting its fetch. */
  lemma OwnerIsFetching<V>(thread: nat -> nat, s: System<V>, i: nat, j: nat)
    requires OneUnparked(thread, s.calls) && Blocked(s, i) && |s.calls[i].out| < |s.calls[i].keys|
    requires OwesBehind(s, j, Awaited(s, i)) && thread(i) == thread(j) && Shape(s.calls[i])
    ensures i != j && s.calls[j].pc.Fetching? && WaitsFor(s, i, j)
  {
    OwedIsNotAwaited(s.calls[i]);
  }

  lemma SameThread(thread: nat -> nat, i: nat, j: nat)
    requires thread(0) == thread(1) && i < 2 && j < 2
    ensures thread(i) == thread(j)
  {
  }

  /** In a stuck state of two calls on one thread one waits for a key the other owes, which is awaiting its fetch. */
  lemma StuckThreadWaits<V>(cfg: Config<V>, thread: nat -> nat, s: System<V>) returns (i: nat, j: nat)
    requires Inv(cfg, s) && |s.calls| == 2 && thread(0) == thread(1)
    requires StuckInTurn(thread, s) && OneUnparked(thread, s.calls)
    ensures i < 2 && j < 2 && i != j && WaitsFor(s, i, j) && s.calls[j].pc.Fetching?
  {
    var u: nat :| u < |s.calls| && !Finished(s.calls[u].pc);
    i := BlockedOn(thread, s, u);
    j := BlockedByOwner(cfg, thread, s, i);
    SameThread(thread, i, j);
    assert Shape(s.calls[i]);
    OwnerIsFetching(thread, s, i, j);
  }

  lemma OwedIsNotAwaited<V>(c: Call<V>)
    requires Shape(c) && |c.out| < |c.keys|
    ensures c.keys[|c.out|] !in Owed(c)
  {
  }

  lemma SharedColdKey<V>(a: seq<Key>, b: seq<Key>, ready: seq<Entry<V>>, k: Key)
    requires k in a && k in b && !Has(ready, k)
    ensures ShareKey(Cold(a, ready), Cold(b, ready))
  {
    ColdMembers(a, ready, k);
    ColdMembers(b, ready, k);
  }

  /** If two calls on one thread get stuck, they share a key that was not resident at the start. */
  lemma StuckOnOneThreadMeansShared<V>(cfg: Config<V>, thread: nat -> nat, run: seq<System<V>>)
    requires ThreadedRun(cfg, thread, run) && |run[0].calls| == 2 && thread(0) == thread(1)
    requires StuckOn(thread, run[|run| - 1])
    ensures ShareKey(Cold(run[0].calls[0].keys, run[0].store.ready), Cold(run[0].calls[1].keys, run[0].store.ready))
  {
    var n := |run| - 1;
    ThreadedRunIsRun(cfg, thread, run);
    RunKeepsInv(cfg, run, n);
    RunKeepsKeys(cfg, run, n);
    RunKeepsPairCold(cfg, run, n);
    RunKeepsOneUnparked(cfg, thread, run, n);
    WaiterSharesCold(cfg, thread, run[n], run[0].store.ready);
  }

  lemma WaiterSharesCold<V>(cfg: Config<V>, thread: nat -> nat, s: System<V>, ready: seq<Entry<V>>)
    requires Inv(cfg, s) && |s.calls| == 2 && thread(0) == thread(1)
    requires StuckInTurn(thread, s) && OneUnparked(thread, s.calls) && PairCold(s, ready)
    ensures ShareKey(Cold(s.calls[0].keys, ready), Cold(s.calls[1].keys, ready))
  {
    var i, j := StuckThreadWaits(cfg, thread, s);
    var k := s.calls[i].keys[|s.calls[i].out|];
    assert BothUnpublished(s);
    OwesColdPrefix(s.calls[j], ready, k);
    assert k in s.calls[i].keys && k in s.calls[j].keys;
    SharedColdKey(s.calls[0].keys, s.calls[1].keys, ready, k);
  }

  // ---- crossed can get stuck ----------------------------------------------------------------

  /** Two calls about to start, over whatever finished calls left in the cache. */
  ghost predicate Pair<V>(cfg: Config<V>, s: System<V>) {
    Init(cfg, s) && |s.calls| == 2 && Fresh(s.calls[0]) && Fresh(s.calls[1])
  }

  /** The first position from `from` on whose key is in `others`. */
  lemma FirstFrom(keys: seq<Key>, from: nat, others: seq<Key>, p: nat) returns (b: nat)
    requires from <= p < |keys| && keys[p] in others
    ensures from <= b <= p && keys[b] in others
    ensures forall q :: from <= q < b ==> keys[q] !in others
  {
    b := from;
    while keys[b] !in others
      invariant from <= b <= p
      invariant forall q :: from <= q < b ==> keys[q] !in others
      decreases p - b
    {
      b := b + 1;
    }
  }

  /** Where both calls must stop: prefixes free of each other, each stopped by a key of the other. */
  lemma CrossingPoint(a: seq<Key>, b: seq<Key>) returns (p: nat, y: nat, q: nat)
    requires Crossed(a, b) && DistinctKeys(a) && DistinctKeys(b)
    ensures p < |a| && y < q < |b| && a[p] == b[y] && b[q] in a[..p]
    ensures forall m :: 0 <= m < p ==> a[m] !in b[..y + 1]
    ensures forall m :: 0 <= m < q ==> b[m] !in a[..p]
  {
    var x := FirstShared(a, b);
    y := FirstShared(b, a);
    p :| 0 <= p < |a| && a[p] == b[y];
    var r :| 0 <= r < |b| && b[r] == a[x];
    assert x < p && y < r;
    assert a[..p][x] == a[x];
    q := FirstFrom(b, y + 1, a[..p], r);
    forall m | 0 <= m < p ensures a[m] !in b[..y + 1] {
      forall l | 0 <= l < y + 1 ensures b[l] != a[m] {
        if l < y {
          assert a[m] in a;
        }
      }
    }
  }

  /** Neither list's keys before its stop are pending by then: what the two have claimed by p, y and q. */
  ghost predicate StopsAt<V>(a: seq<Key>, b: seq<Key>, ready: seq<Entry<V>>, p: nat, y: nat, q: nat) {
    && p < |a| && y < q < |b| && a[p] == b[y] && !Has(ready, a[p]) && b[q] in a[..p] && !Has(ready, b[q])
    && (forall m :: 0 <= m < p && !Has(ready, a[m]) ==> a[m] !in b[..y + 1])
    && (forall m :: y < m < q && !Has(ready, b[m]) ==> b[m] !in a[..p])
  }

  lemma ColdStops<V>(a: seq<Key>, b: seq<Key>, ready: seq<Entry<V>>) returns (p: nat, y: nat, q: nat)
    requires DistinctKeys(a) && DistinctKeys(b) && Crossed(Cold(a, ready), Cold(b, ready))
    ensures StopsAt(a, b, ready, p, y, q)
  {
    ColdDistinct(a, ready);
    ColdDistinct(b, ready);
    var ca, cb := Cold(a, ready), Cold(b, ready);
    var p', y', q' := CrossingPoint(ca, cb);
    p := PlaceOfCold(a, ready, p');
    y := PlaceOfCold(b, ready, y');
    q := PlaceOfCold(b, ready, q');
    PlacesOrdered(b, ready, y, q);
    ColdMembers(a, ready, a[p]);
    ColdMembers(b, ready, b[q]);
    ColdMembers(a[..p], ready, b[q]);
    UpToCold(b, ready, y, cb, y');
    forall m | 0 <= m < p && !Has(ready, a[m]) ensures a[m] !in b[..y + 1] {
      ColdMembers(a[..p], ready, a[m]);
      ColdMembers(b[..y + 1], ready, a[m]);
      assert a[..p][m] == a[m];
      var l :| 0 <= l < p' && ca[l] == a[m];
    }
    forall m | y < m < q && !Has(ready, b[m]) ensures b[m] !in a[..p] {
      ColdMembers(b[..q], ready, b[m]);
      ColdMembers(a[..p], ready, b[m]);
      assert b[..q][m] == b[m];
      var l :| 0 <= l < q' && cb[l] == b[m];
    }
  }

  lemma UpToCold<V>(b: seq<Key>, ready: seq<Entry<V>>, y: nat, cb: seq<Key>, y': nat)
    requires y < |b| && cb == Cold(b, ready) && y' < |cb| && b[y] == cb[y'] && Cold(b[..y], ready) == cb[..y']
    ensures Cold(b[..y + 1], ready) == cb[..y' + 1]
  {
    ColdMembers(b, ready, b[y]);
    assert b[..y + 1][..y] == b[..y];
  }

  /** Call 1 claims through its y-th key. */
  lemma SecondClaims<V>(cfg: Config<V>, thread: nat -> nat, s: System<V>, y: nat) returns (run: seq<System<V>>)
    requires Pair(cfg, s) && thread(0) != thread(1) && y < |s.calls[1].keys|
    ensures TurnRun(cfg, thread, run) && run[0] == s && ClaimedUpTo(s, run[|run| - 1], 1, y + 1)
  {
    run := ClaimStretch(cfg, thread, [s], 1, y + 1);
  }

  /** The pending keys after call 1 has claimed through y and call 0 up to p. */
  ghost predicate PendingAt<V>(s: System<V>, t: System<V>, p: nat, y: nat)
    requires |s.calls| == 2 && p <= |s.calls[0].keys| && y < |s.calls[1].keys|
  {
    && SameResident(t.store.ready, s.store.ready)
    && forall k :: k in t.store.pending <==>
         !Has(s.store.ready, k) && (k in s.calls[0].keys[..p] || k in s.calls[1].keys[..y + 1])
  }

  lemma ClaimsAreFree<V>(cfg: Config<V>, s: System<V>, t: System<V>, p: nat, y: nat, q: nat)
    requires Pair(cfg, s) && StopsAt(s.calls[0].keys, s.calls[1].keys, s.store.ready, p, y, q)
    requires ClaimedUpTo(s, t, 1, y + 1)
    ensures CanClaimUpTo(t, 0, p)
  {
    var b := s.calls[1].keys;
    assert b[0..y + 1] == b[..y + 1];
  }

  lemma PendingAfterBoth<V>(cfg: Config<V>, s: System<V>, t: System<V>, u: System<V>, p: nat, y: nat)
    requires Pair(cfg, s) && p <= |s.calls[0].keys| && y < |s.calls[1].keys|
    requires ClaimedUpTo(s, t, 1, y + 1) && ClaimedUpTo(t, u, 0, p)
    ensures PendingAt(s, u, p, y)
  {
    var a, b := s.calls[0].keys, s.calls[1].keys;
    assert b[0..y + 1] == b[..y + 1] && a[0..p] == a[..p];
  }

  /** Call 0 claims up to its p-th key and goes to wait for it; call 1 holds it. */
  lemma FirstStops<V>(cfg: Config<V>, thread: nat -> nat, s: System<V>, p: nat, y: nat, q: nat)
      returns (run: seq<System<V>>)
    requires Pair(cfg, s) && thread(0) != thread(1)
    requires StopsAt(s.calls[0].keys, s.calls[1].keys, s.store.ready, p, y, q)
    ensures TurnRun(cfg, thread, run) && run[0] == s && PendingAt(s, run[|run| - 1], p, y)
    ensures var t := run[|run| - 1];
            && |t.calls| == 2 && t.calls[0].pc.Waiting? && !Enabled(t, 0)
            && t.calls[1].pc.Claiming? && t.calls[1].keys == s.calls[1].keys && |t.calls[1].out| == y + 1
  {
    var a, b := s.calls[0].keys, s.calls[1].keys;
    run := SecondClaims(cfg, thread, s, y);
    var t := run[|run| - 1];
    ClaimsAreFree(cfg, s, t, p, y, q);
    run := ClaimStretch(cfg, thread, run, 0, p);
    PendingAfterBoth(cfg, s, t, run[|run| - 1], p, y);
    assert b[..y + 1][y] == a[p];
    run := GoWait(cfg, thread, run, 0, a[p]);
  }

  lemma RestIsFree<V>(cfg: Config<V>, s: System<V>, t: System<V>, p: nat, y: nat, q: nat)
    requires Pair(cfg, s) && StopsAt(s.calls[0].keys, s.calls[1].keys, s.store.ready, p, y, q)
    requires PendingAt(s, t, p, y) && |t.calls| == 2 && t.calls[1].pc.Claiming?
    requires t.calls[1].keys == s.calls[1].keys && |t.calls[1].out| == y + 1
    ensures CanClaimUpTo(t, 1, q) && s.calls[1].keys[q] in t.store.pending
  {
    var b := s.calls[1].keys;
    forall m | y + 1 <= m < q ensures b[m] !in t.store.pending {
      assert b[m] !in b[..y + 1];
    }
  }

  /** Two calls on two threads whose keys not resident at the start are crossed have a run that gets stuck. */
  lemma CrossedCanStick<V>(cfg: Config<V>, thread: nat -> nat, s: System<V>) returns (run: seq<System<V>>)
    requires Pair(cfg, s) && thread(0) != thread(1)
    requires Crossed(Cold(s.calls[0].keys, s.store.ready), Cold(s.calls[1].keys, s.store.ready))
    ensures TurnRun(cfg, thread, run) && run[0] == s && StuckOn(thread, run[|run| - 1])
  {
    var p, y, q := ColdStops(s.calls[0].keys, s.calls[1].keys, s.store.ready);
    run := FirstStops(cfg, thread, s, p, y, q);
    RestIsFree(cfg, s, run[|run| - 1], p, y, q);
    run := SecondStops(cfg, thread, run, run[|run| - 1], q);
  }

  /** With call 0 waiting, call 1 claims up to its q-th key, which is pending, and goes to wait as well. */
  lemma SecondStops<V>(cfg: Config<V>, thread: nat -> nat, run: seq<System<V>>, t: System<V>, q: nat)
      returns (longer: seq<System<V>>)
    requires TurnRun(cfg, thread, run) && t == run[|run| - 1] && |t.calls| == 2 && thread(0) != thread(1)
    requires t.calls[0].pc.Waiting? && !Enabled(t, 0)
    requires CanClaimUpTo(t, 1, q) && q < |t.calls[1].keys| && t.calls[1].keys[q] in t.store.pending
    ensures TurnRun(cfg, thread, longer) && longer[0] == run[0] && StuckOn(thread, longer[|longer| - 1])
  {
    var key := t.calls[1].keys[q];
    longer := ClaimStretch(cfg, thread, run, 1, q);
    longer := GoWait(cfg, thread, longer, 1, key);
  }

  /** Call 0 claims all its keys and awaits its fetch. */
  lemma FirstAwaitsFetch<V>(cfg: Config<V>, thread: nat -> nat, s: System<V>, k: Key) returns (run: seq<System<V>>)
    requires Pair(cfg, s) && k in s.calls[0].keys && !Has(s.store.ready, k)
    ensures TurnRun(cfg, thread, run) && run[0] == s
    ensures var t := run[|run| - 1];
            && |t.calls| == 2 && t.calls[0].pc.Fetching? && t.calls[1] == s.calls[1]
            && SameResident(t.store.ready, s.store.ready)
            && forall k :: k in t.store.pending <==> k in s.calls[0].keys && !Has(s.store.ready, k)
  {
    var a := s.calls[0].keys;
    run := [s];
    run := ClaimStretch(cfg, thread, run, 0, |a|);
    var t := run[|run| - 1];
    assert a[0..|a|] == a;
    EndsInInv(cfg, thread, run);
    GrantedSome(cfg, t, 0, k);
    run := GoFetch(cfg, thread, run, 0);
  }

  /** When all else is fresh a pending key was granted to call i. */
  lemma GrantedSome<V>(cfg: Config<V>, t: System<V>, i: nat, k: Key)
    requires Inv(cfg, t) && i < |t.calls| && k in t.store.pending
    requires forall j :: 0 <= j < |t.calls| && j != i ==> t.calls[j].misses == []
    ensures t.calls[i].misses != []
  {
    assert OwedBySome(OwedBy(t.calls), k);
    var j :| 0 <= j < |OwedBy(t.calls)| && k in OwedBy(t.calls)[j];
  }

  /** Two calls on one thread that share a key not resident at the start have a run that gets stuck: the first is
      awaiting its fetch when the second blocks the thread on a key the first owes. */
  lemma SharedCanStickOnOneThread<V>(cfg: Config<V>, thread: nat -> nat, s: System<V>) returns (run: seq<System<V>>)
    requires Pair(cfg, s) && thread(0) == thread(1)
    requires ShareKey(Cold(s.calls[0].keys, s.store.ready), Cold(s.calls[1].keys, s.store.ready))
    ensures TurnRun(cfg, thread, run) && run[0] == s && StuckOn(thread, run[|run| - 1])
  {
    var a, b, ready := s.calls[0].keys, s.calls[1].keys, s.store.ready;
    var k, y := FirstPendingOf(a, b, ready);
    run := FirstAwaitsFetch(cfg, thread, s, k);
    run := ClaimStretch(cfg, thread, run, 1, y);
    run := GoWait(cfg, thread, run, 1, b[y]);
  }

  /** A shared cold key, and the first place of `b` that holds one. */
  lemma FirstPendingOf<V>(a: seq<Key>, b: seq<Key>, ready: seq<Entry<V>>) returns (k: Key, y: nat)
    requires ShareKey(Cold(a, ready), Cold(b, ready))
    ensures k in a && !Has(ready, k) && y < |b| && b[y] in a && !Has(ready, b[y])
    ensures forall m :: 0 <= m < y ==> b[m] !in a || Has(ready, b[m])
  {
    var ca := Cold(a, ready);
    k := ca[FirstShared(ca, Cold(b, ready))];
    ColdMembers(a, ready, k);
    ColdMembers(b, ready, k);
    var p :| 0 <= p < |b| && b[p] == k;
    y := FirstFrom(b, 0, ca, p);
    ColdMembers(a, ready, b[y]);
    forall m | 0 <= m < y ensures b[m] !in a || Has(ready, b[m]) {
      ColdMembers(a, ready, b[m]);
    }
  }

  // ---- exactly when -------------------------------------------------------------------------

  /** Some run from `s` gets stuck. */
  ghost predicate CanStick<V(!new)>(cfg: Config<V>, thread: nat -> nat, s: System<V>) {
    exists run :: StuckRun(cfg, thread, s, run)
  }

  ghost predicate StuckRun<V>(cfg: Config<V>, thread: nat -> nat, s: System<V>, run: seq<System<V>>) {
    ThreadedRun(cfg, thread, run) && run[0] == s && StuckOn(thread, run[|run| - 1])
  }

  /** What decides it: the keys of the two calls that are not resident at the start. */
  ghost predicate Conflicting<V>(thread: nat -> nat, s: System<V>)
    requires |s.calls| == 2
  {
    var (a, b) := (Cold(s.calls[0].keys, s.store.ready), Cold(s.calls[1].keys, s.store.ready));
    if thread(0) == thread(1) then ShareKey(a, b) else Crossed(a, b)
  }

  lemma StuckRunHasCause<V>(cfg: Config<V>, thread: nat -> nat, s: System<V>, run: seq<System<V>>)
    requires Pair(cfg, s) && StuckRun(cfg, thread, s, run)
    ensures Conflicting(thread, s)
  {
    if thread(0) == thread(1) {
      StuckOnOneThreadMeansShared(cfg, thread, run);
    } else {
      ThreadedRunIsRun(cfg, thread, run);
      RunKeepsKeys(cfg, run, |run| - 1);
      OwnThreadStuckIsStuck(thread, run[|run| - 1]);
      StuckMeansCrossed(cfg, run);
    }
  }

  lemma OwnThreadStuckIsStuck<V>(thread: nat -> nat, s: System<V>)
    requires |s.calls| == 2 && thread(0) != thread(1) && StuckOn(thread, s)
    ensures Stuck(s)
  {
    assert MayRun(thread, s, 0) && MayRun(thread, s, 1);
  }

  /** Exactly when two calls can get stuck, from any cache contents: on two threads if the claim orders of their keys
      not resident at the start are crossed, on one thread if they share such a key. */
  lemma CanStickIff<V(!new)>(cfg: Config<V>, thread: nat -> nat, s: System<V>)
    requires Pair(cfg, s)
    ensures CanStick(cfg, thread, s) <==> Conflicting(thread, s)
  {
    if CanStick(cfg, thread, s) {
      var run :| StuckRun(cfg, thread, s, run);
      StuckRunHasCause(cfg, thread, s, run);
    } else if Conflicting(thread, s) {
      var run := ConflictingStuckRun(cfg, thread, s);
    }
  }

  lemma ConflictingStuckRun<V>(cfg: Config<V>, thread: nat -> nat, s: System<V>) returns (run: seq<System<V>>)
    requires Pair(cfg, s) && Conflicting(thread, s)
    ensures StuckRun(cfg, thread, s, run)
  {
    if thread(0) == thread(1) {
      run := SharedCanStickOnOneThread(cfg, thread, s);
    } else {
      run := CrossedCanStick(cfg, thread, s);
    }
    TurnRunIsThreaded(cfg, thread, run);
  }
}
