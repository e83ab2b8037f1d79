/** What callers of fetch_decoded may rely on in every run of concurrent calls. */
module FetchTheorems {
  import opened Wrappers
  import opened Arrays
  import opened TileStore
  import opened TileSource
  import opened FetchProtocol
  import opened FetchInvariant
  import Laws = TileStoreLaws

  /** A call that returns, returns at each index what it would have fetched without a cache; unless
      the source is flaky, it fails only where the uncached call fails too. */
  lemma CacheIsTransparent<V>(cfg: Config<V>, run: seq<System<V>>, n: nat, i: nat)
    requires Run(cfg, run) && n < |run| && i < |run[n].calls|
    ensures var c := run[n].calls[i];
            && (c.pc.Returned? ==>
                  && FetchAll(cfg.source, c.keys).Ok?
                  && |c.out| == |c.keys|
                  && forall j :: 0 <= j < |c.keys| ==>
                       && c.out[j] == Some(FetchAll(cfg.source, c.keys).value[j])
                       && cfg.source(c.keys[j]) == Tile(c.out[j].value))
            && (c.pc.Failed? && !cfg.flaky ==> FetchAll(cfg.source, c.keys).Err?)
  {
    RunKeepsInv(cfg, run, n);
    var c := run[n].calls[i];
    assert Shape(c) && Filled(cfg.source, c);
    if c.pc.Returned? {
      assert c.misses[c.settled..] == [];
      forall j | 0 <= j < |c.keys| ensures c.out[j].Some? && cfg.source(c.keys[j]) == Tile(c.out[j].value) {
      }
    }
    if c.pc.Failed? && !cfg.flaky {
      var m :| 0 <= m < |c.misses| && !cfg.source(c.keys[c.misses[m]]).Tile?;
      assert !AllDecode(cfg.source, c.keys);
    }
  }

  /** One owner per pending key, none per resident key; the budget holds; every miss is accounted for. */
  lemma SingleFlightWithinBudget<V>(cfg: Config<V>, run: seq<System<V>>, n: nat)
    requires Run(cfg, run) && n < |run|
    ensures var s := run[n];
            && Shapes(s.calls)
            && (forall k :: k in s.store.pending <==> OwedBySome(OwedBy(s.calls), k))
            && (forall i, j, k :: 0 <= i < j < |s.calls| ==> k !in Owed(s.calls[i]) || k !in Owed(s.calls[j]))
            && (forall i, k :: 0 <= i < |s.calls| && Has(s.store.ready, k) ==> k !in Owed(s.calls[i]))
            && Bytes(s.store.ready) <= cfg.maxBytes
            && s.store.misses == |s.store.ready| + |s.store.pending| + s.store.evictions + s.aborted
  {
    RunKeepsInv(cfg, run, n);
    var s := run[n];
    var owed := OwedBy(s.calls);
    forall k | OwedBySome(owed, k) ensures k in s.store.pending {
      var i :| 0 <= i < |owed| && k in owed[i];
    }
    forall i, k | 0 <= i < |s.calls| && k in Owed(s.calls[i]) ensures k in s.store.pending {
      assert owed[i] == Owed(s.calls[i]);
    }
    forall i, j | 0 <= i < j < |s.calls| ensures Owed(s.calls[i]) !! Owed(s.calls[j]) {
      assert owed[i] !! owed[j];
    }
  }

  /** A waiting call's signal is fired, or still under its key, or held by a call about to fire it. */
  lemma NoLostWakeUp<V>(cfg: Config<V>, run: seq<System<V>>, n: nat, i: nat)
    requires Run(cfg, run) && n < |run| && i < |run[n].calls| && run[n].calls[i].pc.Waiting?
    ensures var s, c := run[n], run[n].calls[i];
            |c.out| < |c.keys| && WillWake(s.calls, s.store.pending, s.fired, c.keys[|c.out|], c.pc.sig)
  {
    RunKeepsInv(cfg, run, n);
    assert Shape(run[n].calls[i]);
  }

  /** Once every call is finished nothing is pending: whatever was granted has been settled. */
  lemma FinishedLeavesNothingPending<V>(cfg: Config<V>, run: seq<System<V>>, n: nat)
    requires Run(cfg, run) && n < |run|
    requires forall i :: 0 <= i < |run[n].calls| ==> Finished(run[n].calls[i].pc)
    ensures run[n].store.pending == map[]
    ensures run[n].store.misses == |run[n].store.ready| + run[n].store.evictions + run[n].aborted
  {
    SingleFlightWithinBudget(cfg, run, n);
    var s := run[n];
    forall i | 0 <= i < |s.calls| ensures OwedBy(s.calls)[i] == {} {
      assert Shape(s.calls[i]);
    }
    forall k ensures k !in s.store.pending {
      assert !OwedBySome(OwedBy(s.calls), k);
    }
    assert s.store.pending == map[];
  }

  // ---- each granted key is settled exactly once ----------------------------------------------

  /** Call i settles its m-th miss between states n and n + 1. */
  ghost predicate SettlesAt<V>(run: seq<System<V>>, i: nat, m: nat, n: nat)
    requires n + 1 < |run|
  {
    && i < |run[n].calls| && i < |run[n + 1].calls|
    && run[n].calls[i].settled == m && run[n + 1].calls[i].settled == m + 1
  }

  lemma StepSettlesAtMostOne<V>(cfg: Config<V>, s: System<V>, j: nat, fail: bool, t: System<V>, i: nat)
    requires StepOf(cfg, s, j, fail, t) && i < |s.calls|
    ensures |t.calls| == |s.calls|
    ensures t.calls[i].keys == s.calls[i].keys
    ensures s.calls[i].settled <= t.calls[i].settled <= s.calls[i].settled + 1
    ensures t.calls[i].settled == s.calls[i].settled + 1 ==>
              && t.calls[i].misses == s.calls[i].misses
              && s.calls[i].settled < |s.calls[i].misses| && i == j
              && CurrentKey(s.calls[i]) !in t.store.pending
              && (CurrentKey(s.calls[i]) in s.store.pending ==>
                    t.calls[i].pc.Firing? && t.calls[i].pc.sig == s.store.pending[CurrentKey(s.calls[i])])
  {
  }

  /** What a step of some call does to the count of settled keys of call i. */
  lemma StepSettles<V>(cfg: Config<V>, s: System<V>, t: System<V>, i: nat)
    requires Step(cfg, s, t) && i < |s.calls|
    ensures |t.calls| == |s.calls| && s.calls[i].settled <= t.calls[i].settled <= s.calls[i].settled + 1
  {
    var j: nat, fail :| StepOf(cfg, s, j, fail, t);
    StepSettlesAtMostOne(cfg, s, j, fail, t, i);
  }

  lemma StepKeepsCalls<V>(cfg: Config<V>, s: System<V>, t: System<V>)
    requires Step(cfg, s, t)
    ensures |t.calls| == |s.calls|
  {
  }

  lemma SettlesAfter<V>(cfg: Config<V>, run: seq<System<V>>, i: nat, n: nat)
    requires Run(cfg, run) && n + 1 < |run| && i < |run[n].calls|
    ensures i < |run[n + 1].calls| && run[n].calls[i].settled <= run[n + 1].calls[i].settled
  {
    assert StepsAt(cfg, run, n);
    StepSettles(cfg, run[n], run[n + 1], i);
  }

  lemma {:induction false} SettledNeverFalls<V>(cfg: Config<V>, run: seq<System<V>>, i: nat, n: nat, n': nat)
    requires Run(cfg, run) && n <= n' < |run| && i < |run[n].calls|
    ensures i < |run[n'].calls| && run[n].calls[i].settled <= run[n'].calls[i].settled
  {
    if n < n' {
      SettledNeverFalls(cfg, run, i, n, n' - 1);
      SettlesAfter(cfg, run, i, n' - 1);
    }
  }

  lemma SettledBefore<V>(cfg: Config<V>, run: seq<System<V>>, i: nat, n: nat)
    requires Run(cfg, run) && n + 1 < |run| && i < |run[n + 1].calls|
    ensures i < |run[n].calls| && run[n].calls[i].settled <= run[n + 1].calls[i].settled <= run[n].calls[i].settled + 1
  {
    assert StepsAt(cfg, run, n);
    StepKeepsCalls(cfg, run[n], run[n + 1]);
    StepSettles(cfg, run[n], run[n + 1], i);
  }

  lemma {:induction false} SettlesSomewhere<V>(cfg: Config<V>, run: seq<System<V>>, i: nat, m: nat,
                                               last: nat) returns (n: nat)
    requires Run(cfg, run) && last < |run| && i < |run[last].calls| && m < run[last].calls[i].settled
    ensures n < last && SettlesAt(run, i, m, n)
  {
    if last == 0 {
      InitSettlesNothing(cfg, run[0], i);
    } else {
      SettledBefore(cfg, run, i, last - 1);
      if m < run[last - 1].calls[i].settled {
        n := SettlesSomewhere(cfg, run, i, m, last - 1);
      } else {
        n := last - 1;
      }
    }
  }

  lemma InitSettlesNothing<V>(cfg: Config<V>, s: System<V>, i: nat)
    requires Init(cfg, s) && i < |s.calls|
    ensures s.calls[i].settled == 0
  {
    assert Fresh(s.calls[i]);
  }

  lemma SettlesOnce<V>(cfg: Config<V>, run: seq<System<V>>, i: nat, m: nat, n: nat, n': nat)
    requires Run(cfg, run) && n + 1 < |run| && n' + 1 < |run| && SettlesAt(run, i, m, n) && SettlesAt(run, i, m, n')
    ensures n == n'
  {
    if n' < n {
      SettledNeverFalls(cfg, run, i, n' + 1, n);
    } else if n < n' {
      SettledNeverFalls(cfg, run, i, n + 1, n');
    }
  }

  lemma SettlingTakesSlot<V>(cfg: Config<V>, run: seq<System<V>>, i: nat, m: nat, n: nat)
    requires Run(cfg, run) && n + 1 < |run| && SettlesAt(run, i, m, n)
    ensures var s, t := run[n], run[n + 1];
            && Shape(s.calls[i]) && s.calls[i].settled < |s.calls[i].misses|
            && CurrentKey(s.calls[i]) in s.store.pending && CurrentKey(s.calls[i]) !in t.store.pending
            && t.calls[i].pc.Firing? && t.calls[i].pc.sig == s.store.pending[CurrentKey(s.calls[i])]
  {
    RunKeepsInv(cfg, run, n);
    assert StepsAt(cfg, run, n);
    var j: nat, fail :| StepOf(cfg, run[n], j, fail, run[n + 1]);
    StepSettlesAtMostOne(cfg, run[n], j, fail, run[n + 1], i);
    CurrentIsPending(cfg, run[n], i);
  }

  /** However a call ends, each key it was granted is settled by exactly one of its steps; that step
      takes the key's pending slot and puts its signal in the hands of the call. */
  lemma SettledExactlyOnce<V>(cfg: Config<V>, run: seq<System<V>>, i: nat, m: nat, last: nat) returns (n: nat)
    requires Run(cfg, run) && last < |run| && i < |run[last].calls|
    requires Finished(run[last].calls[i].pc) && m < |run[last].calls[i].misses|
    ensures n < last && SettlesAt(run, i, m, n)
    ensures forall n' :: 0 <= n' < last && SettlesAt(run, i, m, n') ==> n' == n
    ensures var s, t := run[n], run[n + 1];
            && Shape(s.calls[i]) && s.calls[i].settled < |s.calls[i].misses|
            && CurrentKey(s.calls[i]) in s.store.pending && CurrentKey(s.calls[i]) !in t.store.pending
            && t.calls[i].pc.Firing? && t.calls[i].pc.sig == s.store.pending[CurrentKey(s.calls[i])]
  {
    RunKeepsInv(cfg, run, last);
    n := SettlesSomewhere(cfg, run, i, m, last);
    forall n' | 0 <= n' < last && SettlesAt(run, i, m, n') ensures n' == n {
      SettlesOnce(cfg, run, i, m, n, n');
    }
    SettlingTakesSlot(cfg, run, i, m, n);
  }
}
