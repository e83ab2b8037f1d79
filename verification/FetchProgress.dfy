/** Progress of concurrent fetch_decoded calls, each on its own thread: with one common claim order
    no call is ever stuck, and every run is finite whatever the order. */
module FetchProgress {
  import opened Wrappers
  import opened Arrays
  import opened TileStore
  import opened TileSource
  import opened FetchProtocol
  import opened FetchInvariant
  import Laws = TileStoreLaws

  /** Every call claims its keys in the order of one ranking. */
  ghost predicate CommonOrder<V>(calls: seq<Call<V>>, rank: Key -> int) {
    forall i :: 0 <= i < |calls| ==> Ascending(calls[i].keys, rank)
  }

  ghost predicate Ascending(keys: seq<Key>, rank: Key -> int) {
    forall p, q :: 0 <= p < q < |keys| ==> rank(keys[p]) < rank(keys[q])
  }

  ghost predicate Started<V>(c: Call<V>) {
    c.out != [] || c.pc != Claiming
  }

  ghost predicate AllFinished<V>(s: System<V>) {
    forall i :: 0 <= i < |s.calls| ==> Finished(s.calls[i].pc)
  }

  /** Nobody can move although somebody is not finished. */
  ghost predicate Stuck<V>(s: System<V>) {
    && !AllFinished(s)
    && forall i :: 0 <= i < |s.calls| ==> !Enabled(s, i)
  }

  lemma {:induction false} RankBound(keys: seq<Key>, rank: Key -> int) returns (bound: int)
    ensures forall p :: 0 <= p < |keys| ==> rank(keys[p]) <= bound
  {
    bound := 0;
    if keys != [] {
      var n := |keys| - 1;
      var b := RankBound(keys[..n], rank);
      bound := if b < rank(keys[n]) then rank(keys[n]) else b;
      forall p | 0 <= p < |keys| ensures rank(keys[p]) <= bound {
        assert p < n ==> keys[..n][p] == keys[p];
      }
    }
  }

  lemma {:induction false} RankBoundAll<V>(calls: seq<Call<V>>, rank: Key -> int) returns (bound: int)
    ensures forall i, p :: 0 <= i < |calls| && 0 <= p < |calls[i].keys| ==> rank(calls[i].keys[p]) <= bound
  {
    bound := 0;
    if calls != [] {
      var n := |calls| - 1;
      var b := RankBoundAll(calls[..n], rank);
      var c := RankBound(calls[n].keys, rank);
      bound := if b < c then c else b;
      forall i, p | 0 <= i < |calls| && 0 <= p < |calls[i].keys| ensures rank(calls[i].keys[p]) <= bound {
        assert i < n ==> calls[..n][i] == calls[i];
      }
    }
  }

  /** The owner of the key a call waits for is unfinished, and waits, if at all, for a later key of its own. */
  lemma OwnerOfAwaited<V>(cfg: Config<V>, s: System<V>, i: nat) returns (j: nat)
    requires Inv(cfg, s) && i < |s.calls| && s.calls[i].pc.Waiting? && !Enabled(s, i)
    ensures j < |s.calls| && !Finished(s.calls[j].pc) && Started(s.calls[j])
    ensures Shape(s.calls[i]) && Shape(s.calls[j]) && |s.calls[i].out| < |s.calls[i].keys|
    ensures s.calls[j].pc.Firing? ||
              (&& s.calls[i].keys[|s.calls[i].out|] in Owed(s.calls[j])
               && exists p :: 0 <= p < |s.calls[j].out| && s.calls[j].keys[p] == s.calls[i].keys[|s.calls[i].out|])
  {
    var c := s.calls[i];
    assert Shape(c);
    var key := c.keys[|c.out|];
    assert WillWake(s.calls, s.store.pending, s.fired, key, c.pc.sig);
    if InHands(s.calls, c.pc.sig) {
      j :| 0 <= j < |s.calls| && s.calls[j].pc.Firing? && s.calls[j].pc.sig == c.pc.sig;
    } else {
      assert OwedBySome(OwedBy(s.calls), key);
      j :| 0 <= j < |OwedBy(s.calls)| && key in OwedBy(s.calls)[j];
      OwedKeyIsBehind(s.calls[j], key);
    }
  }

  lemma OwedKeyIsBehind<V>(c: Call<V>, key: Key)
    requires Shape(c) && key in Owed(c)
    ensures !Finished(c.pc) && c.out != []
    ensures exists p :: 0 <= p < |c.out| && c.keys[p] == key
  {
    var m :| c.settled <= m < |c.misses| && key == c.keys[c.misses[m]];
    assert c.keys[c.misses[m]] == key;
  }

  lemma {:induction false} WaiterLeadsToRunnable<V>(cfg: Config<V>, s: System<V>, rank: Key -> int, bound: int,
                                                    i: nat) returns (j: nat)
    requires Inv(cfg, s) && CommonOrder(s.calls, rank)
    requires forall i, p :: 0 <= i < |s.calls| && 0 <= p < |s.calls[i].keys| ==> rank(s.calls[i].keys[p]) <= bound
    requires i < |s.calls| && s.calls[i].pc.Waiting? && |s.calls[i].out| < |s.calls[i].keys|
    ensures j < |s.calls| && Enabled(s, j) && Started(s.calls[j])
    decreases bound - rank(s.calls[i].keys[|s.calls[i].out|])
  {
    if Enabled(s, i) {
      j := i;
    } else {
      j := OwnerOfAwaited(cfg, s, i);
      if s.calls[j].pc.Waiting? {
        assert Ascending(s.calls[j].keys, rank);
        j := WaiterLeadsToRunnable(cfg, s, rank, bound, j);
      }
    }
  }

  /** With one common claim order, whenever some started call is unfinished some started call can move. */
  lemma NeverStuck<V>(cfg: Config<V>, s: System<V>, rank: Key -> int, i: nat) returns (j: nat)
    requires Inv(cfg, s) && CommonOrder(s.calls, rank)
    requires i < |s.calls| && Started(s.calls[i]) && !Finished(s.calls[i].pc)
    ensures j < |s.calls| && Enabled(s, j) && Started(s.calls[j])
  {
    if s.calls[i].pc.Waiting? {
      var bound := RankBoundAll(s.calls, rank);
      assert Shape(s.calls[i]);
      j := WaiterLeadsToRunnable(cfg, s, rank, bound, i);
    } else {
      j := i;
    }
  }

  // ---- every run is finite ------------------------------------------------------------------

  /** Signals that call c may still cause to be fired. */
  ghost function Undecided<V>(c: Call<V>): int {
    (|c.keys| - |c.out|) + (|c.misses| - c.settled) + (if c.pc.Firing? then 1 else 0)
  }

  ghost function Phase(pc: Pc, fired: set<Sig>): nat {
    match pc
    case Waiting(sig) => if sig in fired then 6 else 4
    case Claiming => 5
    case Fetching => 3
    case Fulfilling => 2
    case Aborting => 1
    case Firing(_, failing) => if failing then 1 else 2
    case Returned => 0
    case Failed => 0
  }

  /** Steps call c has left if no signal keeps it waiting again. */
  ghost function OwnSteps<V>(c: Call<V>, fired: set<Sig>): int {
    2 * (|c.keys| - |c.out|) + (|c.misses| - c.settled) + Phase(c.pc, fired)
  }

  ghost function Work<V>(c: Call<V>, fired: set<Sig>, k: nat): int {
    k * Undecided(c) + OwnSteps(c, fired)
  }

  ghost function TotalWork<V>(calls: seq<Call<V>>, fired: set<Sig>, k: nat): int {
    if calls == [] then 0
    else TotalWork(calls[..|calls| - 1], fired, k) + Work(calls[|calls| - 1], fired, k)
  }

  /** A bound on the steps left: firing one signal is worth two more steps of every other call. */
  ghost function StepsLeft<V>(s: System<V>): int {
    TotalWork(s.calls, s.fired, 2 * |s.calls| + 1)
  }

  lemma {:induction false} TotalWorkUpdate<V>(calls: seq<Call<V>>, fired: set<Sig>, k: nat, i: nat, d: Call<V>)
    requires i < |calls|
    ensures TotalWork(calls[i := d], fired, k) ==
              TotalWork(calls, fired, k) - Work(calls[i], fired, k) + Work(d, fired, k)
  {
    var n := |calls| - 1;
    if i == n {
      assert calls[i := d][..n] == calls[..n];
    } else {
      TotalWorkUpdate(calls[..n], fired, k, i, d);
      assert calls[i := d][..n] == calls[..n][i := d];
    }
  }

  lemma {:induction false} TotalWorkFire<V>(calls: seq<Call<V>>, fired: set<Sig>, k: nat, sig: Sig)
    ensures TotalWork(calls, fired + {sig}, k) <= TotalWork(calls, fired, k) + 2 * |calls|
  {
    if calls != [] {
      TotalWorkFire(calls[..|calls| - 1], fired, k, sig);
    }
  }

  lemma {:induction false} TotalWorkNonNegative<V>(calls: seq<Call<V>>, fired: set<Sig>, k: nat)
    requires Shapes(calls)
    ensures TotalWork(calls, fired, k) >= 0
  {
    if calls != [] {
      assert Shape(calls[|calls| - 1]);
      TotalWorkNonNegative(calls[..|calls| - 1], fired, k);
      TimesNonNegative(k, Undecided(calls[|calls| - 1]));
    }
  }

  lemma TimesNonNegative(k: nat, n: int)
    requires n >= 0
    ensures k * n >= 0
  {
  }

  /** A step either fires a signal, or decides a key, or shortens what the call has left. */
  ghost predicate Progresses<V>(c: Call<V>, d: Call<V>, fired: set<Sig>, fired': set<Sig>) {
    if c.pc.Firing? then
      fired' == fired + {c.pc.sig} && Undecided(d) == Undecided(c) - 1 && OwnSteps(d, fired) == OwnSteps(c, fired)
    else
      && fired' == fired
      && (Undecided(d) == Undecided(c) || Undecided(d) == Undecided(c) - 1)
      && OwnSteps(d, fired) < OwnSteps(c, fired)
  }

  lemma CallProgresses<V>(cfg: Config<V>, s: System<V>, i: nat, fail: bool)
    requires i < |s.calls| && Shape(s.calls[i]) && Enabled(s, i) && MayGo(cfg, s.calls[i], fail)
    requires s.calls[i].settled < |s.calls[i].misses| ==> CurrentKey(s.calls[i]) in s.store.pending
    requires forall k :: k in s.store.pending ==> !Has(s.store.ready, k) && s.store.pending[k] !in s.fired
    ensures var t := Next(cfg, s, i, fail);
            && |t.calls| == |s.calls| && t.calls == s.calls[i := t.calls[i]]
            && Progresses(s.calls[i], t.calls[i], s.fired, t.fired)
  {
  }

  lemma StepProgresses<V>(cfg: Config<V>, s: System<V>, i: nat, fail: bool, t: System<V>)
    requires Inv(cfg, s) && StepOf(cfg, s, i, fail, t)
    ensures |t.calls| == |s.calls| && t.calls == s.calls[i := t.calls[i]]
    ensures Progresses(s.calls[i], t.calls[i], s.fired, t.fired)
  {
    if s.calls[i].settled < |s.calls[i].misses| {
      CurrentIsPending(cfg, s, i);
    }
    CallProgresses(cfg, s, i, fail);
  }

  lemma WorkFalls<V>(c: Call<V>, d: Call<V>, fired: set<Sig>, k: nat)
    requires Undecided(d) == Undecided(c) || Undecided(d) == Undecided(c) - 1
    ensures Work(d, fired, k) ==
              Work(c, fired, k) - k * (Undecided(c) - Undecided(d)) + OwnSteps(d, fired) - OwnSteps(c, fired)
    ensures Undecided(d) == Undecided(c) - 1 ==>
              Work(d, fired, k) == Work(c, fired, k) - k + OwnSteps(d, fired) - OwnSteps(c, fired)
  {
    var u, v := Undecided(c), Undecided(d);
    assert k * u - k * v == k * (u - v);
  }

  lemma TotalWorkFalls<V>(calls: seq<Call<V>>, i: nat, d: Call<V>, fired: set<Sig>, fired': set<Sig>)
    requires i < |calls| && Progresses(calls[i], d, fired, fired')
    ensures TotalWork(calls[i := d], fired', 2 * |calls| + 1) < TotalWork(calls, fired, 2 * |calls| + 1)
  {
    var k := 2 * |calls| + 1;
    WorkFalls(calls[i], d, fired, k);
    TotalWorkUpdate(calls, fired, k, i, d);
    if calls[i].pc.Firing? {
      TotalWorkFire(calls[i := d], fired, k, calls[i].pc.sig);
    }
  }

  lemma ProgressFalls<V>(s: System<V>, i: nat, t: System<V>)
    requires i < |s.calls| == |t.calls| && t.calls == s.calls[i := t.calls[i]]
    requires Progresses(s.calls[i], t.calls[i], s.fired, t.fired)
    ensures StepsLeft(t) < StepsLeft(s)
  {
    TotalWorkFalls(s.calls, i, t.calls[i], s.fired, t.fired);
  }

  lemma StepsLeftFalls<V>(cfg: Config<V>, s: System<V>, i: nat, fail: bool, t: System<V>)
    requires Inv(cfg, s) && StepOf(cfg, s, i, fail, t)
    ensures StepsLeft(t) < StepsLeft(s)
  {
    StepProgresses(cfg, s, i, fail, t);
    ProgressFalls(s, i, t);
  }

  lemma StepSpendsOne<V>(cfg: Config<V>, s: System<V>, t: System<V>)
    requires Inv(cfg, s) && Step(cfg, s, t)
    ensures StepsLeft(t) < StepsLeft(s)
  {
    var i: nat, fail :| StepOf(cfg, s, i, fail, t);
    StepsLeftFalls(cfg, s, i, fail, t);
  }

  lemma StepsLeftNonNegative<V>(cfg: Config<V>, s: System<V>)
    requires Inv(cfg, s)
    ensures StepsLeft(s) >= 0
  {
    TotalWorkNonNegative(s.calls, s.fired, 2 * |s.calls| + 1);
  }

  lemma SpendsOneAt<V>(cfg: Config<V>, run: seq<System<V>>, n: nat)
    requires Run(cfg, run) && n + 1 < |run|
    ensures StepsLeft(run[n + 1]) < StepsLeft(run[n])
  {
    RunKeepsInv(cfg, run, n);
    assert StepsAt(cfg, run, n);
    StepSpendsOne(cfg, run[n], run[n + 1]);
  }

  lemma {:induction false} EachStepSpends<V>(cfg: Config<V>, run: seq<System<V>>, n: nat)
    requires Run(cfg, run) && n < |run|
    ensures n <= StepsLeft(run[0]) - StepsLeft(run[n])
  {
    if n > 0 {
      EachStepSpends(cfg, run, n - 1);
      SpendsOneAt(cfg, run, n - 1);
    }
  }

  /** A run never takes more steps than its first state allows: all runs of given calls are finite. */
  lemma RunsAreFinite<V>(cfg: Config<V>, run: seq<System<V>>)
    requires Run(cfg, run)
    ensures |run| - 1 <= StepsLeft(run[0])
  {
    var n := |run| - 1;
    EachStepSpends(cfg, run, n);
    RunKeepsInv(cfg, run, n);
    StepsLeftNonNegative(cfg, run[n]);
  }

  // ---- each retry uses up a signal ----------------------------------------------------------

  /** Between states n and n + 1 call i wakes and goes back to claim. */
  ghost predicate RetriesAt<V>(run: seq<System<V>>, i: nat, n: nat) {
    && n + 1 < |run| && i < |run[n].calls| && i < |run[n + 1].calls|
    && run[n].calls[i].pc.Waiting? && run[n + 1].calls[i].pc.Claiming?
  }

  /** The signal is fired and call i does not wait for it. */
  ghost predicate UsedUp<V>(s: System<V>, i: nat, sig: Sig) {
    i < |s.calls| && sig in s.fired && (s.calls[i].pc.Waiting? ==> s.calls[i].pc.sig != sig)
  }

  lemma RetryUsesUp<V>(cfg: Config<V>, s: System<V>, t: System<V>, i: nat)
    requires Step(cfg, s, t) && i < |s.calls| && i < |t.calls| && s.calls[i].pc.Waiting? && t.calls[i].pc.Claiming?
    ensures s.calls[i].pc.sig in s.fired && UsedUp(t, i, s.calls[i].pc.sig)
  {
    var j: nat, fail :| StepOf(cfg, s, j, fail, t);
  }

  /** A call that starts to wait takes its signal from a pending slot, and pending signals are not fired. */
  lemma StepKeepsUsedUp<V>(cfg: Config<V>, s: System<V>, t: System<V>, i: nat, sig: Sig)
    requires Step(cfg, s, t) && UsedUp(s, i, sig)
    requires Signals(s.calls, s.store.pending, s.store.nextSig, s.fired)
    ensures UsedUp(t, i, sig)
  {
    var j: nat, fail :| StepOf(cfg, s, j, fail, t);
  }

  lemma UsedUpAt<V>(cfg: Config<V>, run: seq<System<V>>, i: nat, sig: Sig, n: nat)
    requires Run(cfg, run) && n + 1 < |run| && UsedUp(run[n], i, sig)
    ensures UsedUp(run[n + 1], i, sig)
  {
    RunKeepsInv(cfg, run, n);
    assert StepsAt(cfg, run, n);
    StepKeepsUsedUp(cfg, run[n], run[n + 1], i, sig);
  }

  lemma {:induction false} RunKeepsUsedUp<V>(cfg: Config<V>, run: seq<System<V>>, i: nat, sig: Sig, n: nat, n': nat)
    requires Run(cfg, run) && n <= n' < |run| && UsedUp(run[n], i, sig)
    ensures UsedUp(run[n'], i, sig)
  {
    if n < n' {
      RunKeepsUsedUp(cfg, run, i, sig, n, n' - 1);
      UsedUpAt(cfg, run, i, sig, n' - 1);
    }
  }

  /** A call goes back to claim only after the signal it waited for has been fired, and never twice for one signal. */
  lemma RetriesUseUpSignals<V>(cfg: Config<V>, run: seq<System<V>>, i: nat, n: nat, n': nat)
    requires Run(cfg, run) && n < n' && RetriesAt(run, i, n) && RetriesAt(run, i, n')
    ensures run[n].calls[i].pc.sig in run[n].fired && run[n'].calls[i].pc.sig in run[n'].fired
    ensures run[n].calls[i].pc.sig != run[n'].calls[i].pc.sig
  {
    assert StepsAt(cfg, run, n) && StepsAt(cfg, run, n');
    RetryUsesUp(cfg, run[n], run[n + 1], i);
    RetryUsesUp(cfg, run[n'], run[n' + 1], i);
    RunKeepsUsedUp(cfg, run, i, run[n].calls[i].pc.sig, n + 1, n');
  }

  // ---- every run ends with every call finished ----------------------------------------------

  lemma EnabledCanStep<V>(cfg: Config<V>, s: System<V>, i: nat) returns (t: System<V>)
    requires Inv(cfg, s) && i < |s.calls| && Enabled(s, i)
    ensures Step(cfg, s, t)
  {
    var c := s.calls[i];
    assert Shape(c);
    var fail :=
      if c.pc.Fetching? then SomeMissFailsFetch(cfg.source, c)
      else c.pc.Fulfilling? && c.settled < |c.misses| && !cfg.source(CurrentKey(c)).Tile?;
    t := Next(cfg, s, i, fail);
    assert StepOf(cfg, s, i, fail, t);
  }

  ghost predicate Terminal<V(!new)>(cfg: Config<V>, s: System<V>) {
    forall t :: !Step(cfg, s, t)
  }

  /** A run that cannot be continued has finished every call. */
  lemma MaximalRunsFinishEveryCall<V(!new)>(cfg: Config<V>, run: seq<System<V>>, rank: Key -> int)
    requires Run(cfg, run)
    requires CommonOrder(run[|run| - 1].calls, rank)
    requires Terminal(cfg, run[|run| - 1])
    ensures AllFinished(run[|run| - 1])
  {
    var s := run[|run| - 1];
    RunKeepsInv(cfg, run, |run| - 1);
    forall i | 0 <= i < |s.calls| ensures Finished(s.calls[i].pc) {
      if !Finished(s.calls[i].pc) {
        var j := i;
        if Started(s.calls[i]) {
          j := NeverStuck(cfg, s, rank, i);
        }
        var t := EnabledCanStep(cfg, s, j);
        assert false;
      }
    }
  }
}
