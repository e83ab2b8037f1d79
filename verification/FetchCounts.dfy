/** What every run leaves in the cache and its counters: a call that returns has published each tile it was granted, and
    each claim is one hit or one miss. */
module FetchCounts {
  import opened Wrappers
  import opened Arrays
  import opened TileStore
  import opened TileSource
  import opened FetchProtocol
  import opened FetchInvariant
  import opened FetchTheorems
  import Laws = TileStoreLaws

  // ---- tiles --------------------------------------------------------------------------------

  lemma StepSettlesHow<V>(cfg: Config<V>, s: System<V>, j: nat, fail: bool, t: System<V>, i: nat)
    requires StepOf(cfg, s, j, fail, t) && i < |s.calls| && t.calls[i].settled == s.calls[i].settled + 1
    ensures Shape(s.calls[i]) && s.calls[i].settled < |s.calls[i].misses|
    ensures if Failing(s.calls[i].pc) then t.store == Release(s.store, CurrentKey(s.calls[i])).0
            else
              && cfg.source(CurrentKey(s.calls[i])).Tile?
              && t.store == Publish(s.store, cfg.maxBytes, CurrentKey(s.calls[i]),
                                    cfg.source(CurrentKey(s.calls[i])).arr).0
  {
  }

  /** After a step that settles a key of a call: a failing call has changed no tile, any other has put the source's tile
      at the recent end, or emptied the cache if the tile alone is over the budget. */
  ghost predicate LeavesTile<V>(cfg: Config<V>, s: System<V>, t: System<V>, failing: bool, key: Key) {
    if failing then t.store.ready == s.store.ready
    else
      && cfg.source(key).Tile?
      && var e, n := Entry(key, cfg.source(key).arr), |t.store.ready| - 1;
         if ArrayBytes(e.arr) <= cfg.maxBytes then n >= 0 && t.store.ready[n] == e else n < 0
  }

  lemma SettlingLeavesTile<V>(cfg: Config<V>, run: seq<System<V>>, i: nat, m: nat, n: nat)
    requires Run(cfg, run) && n + 1 < |run| && SettlesAt(run, i, m, n)
    ensures Shape(run[n].calls[i]) && run[n].calls[i].settled < |run[n].calls[i].misses|
    ensures LeavesTile(cfg, run[n], run[n + 1], Failing(run[n].calls[i].pc), CurrentKey(run[n].calls[i]))
  {
    RunKeepsInv(cfg, run, n);
    assert StepsAt(cfg, run, n);
    var s, t, c := run[n], run[n + 1], run[n].calls[i];
    var j: nat, fail :| StepOf(cfg, s, j, fail, t);
    StepSettlesHow(cfg, s, j, fail, t, i);
    if !Failing(c.pc) {
      Laws.PublishedIsHitIff(s.store, cfg.maxBytes, CurrentKey(c), cfg.source(CurrentKey(c)).arr);
    }
  }

  /** A call that fails once stays failing. */
  lemma StepKeepsFailing<V>(cfg: Config<V>, s: System<V>, t: System<V>, i: nat)
    requires Step(cfg, s, t) && i < |s.calls| && Failing(s.calls[i].pc)
    ensures i < |t.calls| && Failing(t.calls[i].pc)
  {
  }

  lemma {:induction false} FailingStays<V>(cfg: Config<V>, run: seq<System<V>>, i: nat, n: nat, n': nat)
    requires Run(cfg, run) && n <= n' < |run| && i < |run[n].calls| && Failing(run[n].calls[i].pc)
    ensures i < |run[n'].calls| && Failing(run[n'].calls[i].pc)
  {
    if n < n' {
      FailingStays(cfg, run, i, n, n' - 1);
      assert StepsAt(cfg, run, n' - 1);
      StepKeepsFailing(cfg, run[n' - 1], run[n'], i);
    }
  }

  /** A call that returned has published each tile it was granted, at the recent end of the cache, by exactly one of its
      steps; unless the tile alone is over the budget. */
  lemma ReturnedPublishedAll<V>(cfg: Config<V>, run: seq<System<V>>, i: nat, m: nat, last: nat) returns (n: nat)
    requires Run(cfg, run) && last < |run| && i < |run[last].calls|
    requires run[last].calls[i].pc.Returned? && m < |run[last].calls[i].misses|
    ensures n < last && SettlesAt(run, i, m, n)
    ensures forall n' :: 0 <= n' < last && SettlesAt(run, i, m, n') ==> n' == n
    ensures Shape(run[n].calls[i]) && run[n].calls[i].settled < |run[n].calls[i].misses|
    ensures LeavesTile(cfg, run[n], run[n + 1], false, CurrentKey(run[n].calls[i]))
  {
    n := SettledExactlyOnce(cfg, run, i, m, last);
    SettlingLeavesTile(cfg, run, i, m, n);
    if Failing(run[n].calls[i].pc) {
      FailingStays(cfg, run, i, n, last);
    }
  }

  // ---- fetches ------------------------------------------------------------------------------

  /** A call past its claims that has not returned was granted a tile; if one of its tiles cannot be fetched it gets no
      further than the fetch, which fails as a whole. */
  ghost predicate FetchesAsOne<V>(cfg: Config<V>, c: Call<V>)
    requires Shape(c)
  {
    && (!InClaimPhase(c.pc) && !c.pc.Returned? ==> c.misses != [])
    && (SomeMissFailsFetch(cfg.source, c) ==> InClaimPhase(c.pc) || c.pc.Fetching? || Failing(c.pc))
  }

  lemma OwnStepFetchesAsOne<V>(cfg: Config<V>, s: System<V>, i: nat, fail: bool, t: System<V>)
    requires StepOf(cfg, s, i, fail, t) && FetchesAsOne(cfg, s.calls[i]) && i < |t.calls| && Shape(t.calls[i])
    ensures FetchesAsOne(cfg, t.calls[i])
  {
    if s.calls[i].pc.Claiming? && |s.calls[i].out| < |s.calls[i].keys| {
      assert InClaimPhase(t.calls[i].pc);
    } else {
      assert t.calls[i].misses == s.calls[i].misses && t.calls[i].keys == s.calls[i].keys;
    }
  }

  lemma StepFetchesAsOne<V>(cfg: Config<V>, s: System<V>, t: System<V>, i: nat)
    requires Step(cfg, s, t) && i < |s.calls| && Shape(s.calls[i]) && FetchesAsOne(cfg, s.calls[i])
    requires i < |t.calls| && Shape(t.calls[i])
    ensures FetchesAsOne(cfg, t.calls[i])
  {
    var j: nat, fail :| StepOf(cfg, s, j, fail, t);
    if i == j {
      OwnStepFetchesAsOne(cfg, s, i, fail, t);
    } else {
      OtherCallsStay(cfg, s, j, fail, t, i);
    }
  }

  lemma OtherCallsStay<V>(cfg: Config<V>, s: System<V>, j: nat, fail: bool, t: System<V>, i: nat)
    requires StepOf(cfg, s, j, fail, t) && i < |s.calls| && i != j
    ensures i < |t.calls| && t.calls[i] == s.calls[i]
  {
  }

  lemma ShapeInRun<V>(cfg: Config<V>, run: seq<System<V>>, n: nat, i: nat)
    requires Run(cfg, run) && n < |run| && i < |run[n].calls|
    ensures Shape(run[n].calls[i])
  {
    RunKeepsInv(cfg, run, n);
  }

  /** In every state of every run: only a call with a miss fetches, and a fetch that fails for one tile publishes
      none. */
  lemma {:induction false} EveryCallFetchesAsOne<V>(cfg: Config<V>, run: seq<System<V>>, n: nat, i: nat)
    requires Run(cfg, run) && n < |run| && i < |run[n].calls|
    ensures Shape(run[n].calls[i]) && FetchesAsOne(cfg, run[n].calls[i])
  {
    ShapeInRun(cfg, run, n, i);
    if n == 0 {
      assert Fresh(run[0].calls[i]);
    } else {
      assert StepsAt(cfg, run, n - 1);
      StepKeepsCalls(cfg, run[n - 1], run[n]);
      EveryCallFetchesAsOne(cfg, run, n - 1, i);
      StepFetchesAsOne(cfg, run[n - 1], run[n], i);
    }
  }

  // ---- counters -----------------------------------------------------------------------------

  /** Claims answered so far, and how many of them were misses. */
  ghost function Claims<V>(calls: seq<Call<V>>): nat {
    if calls == [] then 0 else Claims(calls[..|calls| - 1]) + |calls[|calls| - 1].out|
  }

  ghost function Misses<V>(calls: seq<Call<V>>): nat {
    if calls == [] then 0 else Misses(calls[..|calls| - 1]) + |calls[|calls| - 1].misses|
  }

  lemma {:induction false} UpdatedCounts<V>(calls: seq<Call<V>>, i: nat, c: Call<V>)
    requires i < |calls|
    ensures Claims(calls[i := c]) == Claims(calls) - |calls[i].out| + |c.out|
    ensures Misses(calls[i := c]) == Misses(calls) - |calls[i].misses| + |c.misses|
  {
    var n := |calls| - 1;
    if i == n {
      assert calls[i := c][..n] == calls[..n];
    } else {
      assert calls[i := c][..n] == calls[..n][i := c];
      UpdatedCounts(calls[..n], i, c);
    }
  }

  lemma StepCounts<V>(cfg: Config<V>, s: System<V>, i: nat, fail: bool, t: System<V>)
    requires StepOf(cfg, s, i, fail, t)
    ensures t.calls == s.calls[i := t.calls[i]]
    ensures t.store.misses - s.store.misses == |t.calls[i].misses| - |s.calls[i].misses|
    ensures t.store.hits + t.store.misses - (s.store.hits + s.store.misses) == |t.calls[i].out| - |s.calls[i].out|
  {
  }

  lemma {:induction false} FreshCounts<V>(calls: seq<Call<V>>)
    requires forall i :: 0 <= i < |calls| ==> Fresh(calls[i])
    ensures Claims(calls) == 0 && Misses(calls) == 0
  {
    if calls != [] {
      FreshCounts(calls[..|calls| - 1]);
    }
  }

  /** In every state of every run the counters say: each claim answered was one hit or one miss, and the misses are the
      tiles the calls were granted to fetch. */
  lemma {:induction false} EachClaimIsCounted<V>(cfg: Config<V>, run: seq<System<V>>, n: nat)
    requires Run(cfg, run) && n < |run|
    ensures run[n].store.misses == run[0].store.misses + Misses(run[n].calls)
    ensures run[n].store.hits == run[0].store.hits + Claims(run[n].calls) - Misses(run[n].calls)
  {
    if n == 0 {
      FreshCounts(run[0].calls);
    } else {
      EachClaimIsCounted(cfg, run, n - 1);
      assert StepsAt(cfg, run, n - 1);
      var s, t := run[n - 1], run[n];
      var i: nat, fail :| StepOf(cfg, s, i, fail, t);
      StepCounts(cfg, s, i, fail, t);
      UpdatedCounts(s.calls, i, t.calls[i]);
    }
  }
}
