/** Calls on threads. A wait blocks its whole thread, and a thread turns to another of its calls only while the others
    await their fetches. Any number of calls and any assignment of threads: when they can never get stuck. */
module FetchThreads {
  import opened Wrappers
  import opened Arrays
  import opened TileStore
  import opened TileSource
  import opened FetchProtocol
  import opened FetchInvariant
  import opened FetchProgress

  /** A call its thread can leave alone: not begun, awaiting its fetch, or finished. */
  ghost predicate Parked<V>(c: Call<V>) {
    !Started(c) || c.pc.Fetching? || Finished(c.pc)
  }

  /** The thread of call i is free for it: its other calls are parked. */
  ghost predicate MayRun<V>(thread: nat -> nat, s: System<V>, i: nat) {
    forall j: nat :: j < |s.calls| && j != i && thread(j) == thread(i) ==> Parked(s.calls[j])
  }

  ghost predicate ThreadedStep<V>(cfg: Config<V>, thread: nat -> nat, s: System<V>, t: System<V>) {
    exists i: nat, fail :: StepOf(cfg, s, i, fail, t) && MayRun(thread, s, i)
  }

  ghost predicate ThreadedAt<V>(cfg: Config<V>, thread: nat -> nat, run: seq<System<V>>, n: int)
    requires 0 <= n < |run| - 1
  {
    ThreadedStep(cfg, thread, run[n], run[n + 1])
  }

  ghost predicate ThreadedRun<V>(cfg: Config<V>, thread: nat -> nat, run: seq<System<V>>) {
    && run != [] && Init(cfg, run[0])
    && forall n :: 0 <= n < |run| - 1 ==> ThreadedAt(cfg, thread, run, n)
  }

  /** Somebody is unfinished, but no thread has a call that can move. */
  ghost predicate StuckOn<V>(thread: nat -> nat, s: System<V>) {
    && !AllFinished(s)
    && forall i: nat :: i < |s.calls| && Enabled(s, i) ==> !MayRun(thread, s, i)
  }

  // ---- calls begun in turn ------------------------------------------------------------------

  /** Call i has begun, or all earlier calls of its thread have. */
  ghost predicate InTurn<V>(thread: nat -> nat, s: System<V>, i: nat)
    requires i < |s.calls|
  {
    Started(s.calls[i]) || forall j: nat :: j < i && thread(j) == thread(i) ==> Started(s.calls[j])
  }

  ghost predicate TurnStepOf<V>(cfg: Config<V>, thread: nat -> nat, s: System<V>, i: nat, fail: bool, t: System<V>) {
    StepOf(cfg, s, i, fail, t) && MayRun(thread, s, i) && InTurn(thread, s, i)
  }

  ghost predicate TurnStep<V>(cfg: Config<V>, thread: nat -> nat, s: System<V>, t: System<V>) {
    exists i: nat, fail :: TurnStepOf(cfg, thread, s, i, fail, t)
  }

  ghost predicate TurnAt<V>(cfg: Config<V>, thread: nat -> nat, run: seq<System<V>>, n: int)
    requires 0 <= n < |run| - 1
  {
    TurnStep(cfg, thread, run[n], run[n + 1])
  }

  /** A run in which each thread begins its calls in the order of their indices. */
  ghost predicate TurnRun<V>(cfg: Config<V>, thread: nat -> nat, run: seq<System<V>>) {
    && run != [] && Init(cfg, run[0])
    && forall n :: 0 <= n < |run| - 1 ==> TurnAt(cfg, thread, run, n)
  }

  /** Somebody is unfinished, but no thread has a call that can move and whose turn it is. */
  ghost predicate StuckInTurn<V>(thread: nat -> nat, s: System<V>) {
    && !AllFinished(s)
    && forall i: nat :: i < |s.calls| && Enabled(s, i) && InTurn(thread, s, i) ==> !MayRun(thread, s, i)
  }

  /** Keys of an earlier call of a thread rank below those of a later one. */
  ghost predicate RankedThreads<V>(thread: nat -> nat, calls: seq<Call<V>>, rank: Key -> int) {
    forall i: nat, j: nat :: i < j < |calls| && thread(i) == thread(j) ==> AllBelow(calls[i].keys, calls[j].keys, rank)
  }

  ghost predicate AllBelow(a: seq<Key>, b: seq<Key>, rank: Key -> int) {
    forall p, q :: 0 <= p < |a| && 0 <= q < |b| ==> rank(a[p]) < rank(b[q])
  }

  lemma ThreadedRunIsRun<V>(cfg: Config<V>, thread: nat -> nat, run: seq<System<V>>)
    requires ThreadedRun(cfg, thread, run)
    ensures Run(cfg, run)
  {
    forall n | 0 <= n < |run| - 1 ensures StepsAt(cfg, run, n) {
      assert ThreadedAt(cfg, thread, run, n);
    }
  }

  lemma TurnRunIsThreaded<V>(cfg: Config<V>, thread: nat -> nat, run: seq<System<V>>)
    requires TurnRun(cfg, thread, run)
    ensures ThreadedRun(cfg, thread, run)
  {
    forall n | 0 <= n < |run| - 1 ensures ThreadedAt(cfg, thread, run, n) {
      assert TurnAt(cfg, thread, run, n);
      var i: nat, fail :| TurnStepOf(cfg, thread, run[n], i, fail, run[n + 1]);
      assert StepOf(cfg, run[n], i, fail, run[n + 1]) && MayRun(thread, run[n], i);
    }
  }

  // ---- what a step keeps --------------------------------------------------------------------

  /** A step changes one call, keeps its keys, and never returns it to the claim phase. */
  ghost predicate OnlyMoves<V>(calls: seq<Call<V>>, calls': seq<Call<V>>, i: nat) {
    && i < |calls| && |calls'| == |calls| && calls' == calls[i := calls'[i]]
    && calls'[i].keys == calls[i].keys
    && (InClaimPhase(calls'[i].pc) ==> InClaimPhase(calls[i].pc))
  }

  lemma StepMoves<V>(cfg: Config<V>, s: System<V>, i: nat, fail: bool, t: System<V>)
    requires StepOf(cfg, s, i, fail, t)
    ensures OnlyMoves(s.calls, t.calls, i)
  {
  }

  ghost predicate SameKeys<V>(calls: seq<Call<V>>, calls': seq<Call<V>>) {
    |calls| == |calls'| && forall j :: 0 <= j < |calls| ==> calls[j].keys == calls'[j].keys
  }

  lemma StepKeepsKeys<V>(cfg: Config<V>, s: System<V>, t: System<V>)
    requires Step(cfg, s, t)
    ensures SameKeys(s.calls, t.calls)
  {
    var i: nat, fail :| StepOf(cfg, s, i, fail, t);
    StepMoves(cfg, s, i, fail, t);
  }

  lemma SameKeysChain<V>(a: seq<Call<V>>, b: seq<Call<V>>, c: seq<Call<V>>)
    requires SameKeys(a, b) && SameKeys(b, c)
    ensures SameKeys(a, c)
  {
  }

  lemma NextKeepsKeys<V>(cfg: Config<V>, run: seq<System<V>>, n: nat)
    requires Run(cfg, run) && n + 1 < |run|
    ensures SameKeys(run[n].calls, run[n + 1].calls)
  {
    assert StepsAt(cfg, run, n);
    StepKeepsKeys(cfg, run[n], run[n + 1]);
  }

  /** Calls keep the tiles they were made for. */
  lemma {:induction false} RunKeepsKeys<V>(cfg: Config<V>, run: seq<System<V>>, n: nat)
    requires Run(cfg, run) && n < |run|
    ensures SameKeys(run[0].calls, run[n].calls)
  {
    if n > 0 {
      RunKeepsKeys(cfg, run, n - 1);
      NextKeepsKeys(cfg, run, n - 1);
      SameKeysChain(run[0].calls, run[n - 1].calls, run[n].calls);
    }
  }

  /** Each thread has at most one call away from its parking places. */
  ghost predicate OneUnparked<V>(thread: nat -> nat, calls: seq<Call<V>>) {
    forall i: nat, j: nat :: i < j < |calls| && thread(i) == thread(j) ==> Parked(calls[i]) || Parked(calls[j])
  }

  lemma MoveKeepsOneUnparked<V>(thread: nat -> nat, s: System<V>, i: nat, t: System<V>)
    requires OneUnparked(thread, s.calls) && OnlyMoves(s.calls, t.calls, i) && MayRun(thread, s, i)
    ensures OneUnparked(thread, t.calls)
  {
  }

  lemma InitParked<V>(cfg: Config<V>, thread: nat -> nat, s: System<V>)
    requires Init(cfg, s)
    ensures OneUnparked(thread, s.calls) && BegunInOrder(thread, s.calls)
  {
    forall i | 0 <= i < |s.calls| ensures !Started(s.calls[i]) {
      assert Fresh(s.calls[i]);
    }
  }

  lemma {:induction false} RunKeepsOneUnparked<V>(cfg: Config<V>, thread: nat -> nat, run: seq<System<V>>, n: nat)
    requires ThreadedRun(cfg, thread, run) && n < |run|
    ensures OneUnparked(thread, run[n].calls)
  {
    if n == 0 {
      InitParked(cfg, thread, run[0]);
    } else {
      RunKeepsOneUnparked(cfg, thread, run, n - 1);
      assert ThreadedAt(cfg, thread, run, n - 1);
      StepKeepsOneUnparked(cfg, thread, run[n - 1], run[n]);
    }
  }

  lemma StepKeepsOneUnparked<V>(cfg: Config<V>, thread: nat -> nat, s: System<V>, t: System<V>)
    requires ThreadedStep(cfg, thread, s, t) && OneUnparked(thread, s.calls)
    ensures OneUnparked(thread, t.calls)
  {
    var i: nat, fail :| StepOf(cfg, s, i, fail, t) && MayRun(thread, s, i);
    StepMoves(cfg, s, i, fail, t);
    MoveKeepsOneUnparked(thread, s, i, t);
  }

  /** A thread has a call begun only when its earlier calls are done claiming. */
  ghost predicate BegunInOrder<V>(thread: nat -> nat, calls: seq<Call<V>>) {
    forall i: nat, j: nat :: i < j < |calls| && thread(i) == thread(j) && Started(calls[j]) ==>
      !InClaimPhase(calls[i].pc)
  }

  lemma MoveKeepsBegunInOrder<V>(thread: nat -> nat, s: System<V>, i: nat, t: System<V>)
    requires BegunInOrder(thread, s.calls) && OnlyMoves(s.calls, t.calls, i)
    requires MayRun(thread, s, i) && InTurn(thread, s, i)
    ensures BegunInOrder(thread, t.calls)
  {
    forall j: nat, k: nat | j < k < |t.calls| && thread(j) == thread(k) && Started(t.calls[k])
      ensures !InClaimPhase(t.calls[j].pc)
    {
      if k == i && !Started(s.calls[k]) {
        assert Started(s.calls[j]) && Parked(s.calls[j]);
      }
    }
  }

  lemma StepKeepsBegunInOrder<V>(cfg: Config<V>, thread: nat -> nat, s: System<V>, t: System<V>)
    requires TurnStep(cfg, thread, s, t) && BegunInOrder(thread, s.calls)
    ensures BegunInOrder(thread, t.calls)
  {
    var i: nat, fail :| TurnStepOf(cfg, thread, s, i, fail, t);
    StepMoves(cfg, s, i, fail, t);
    MoveKeepsBegunInOrder(thread, s, i, t);
  }

  lemma {:induction false} RunKeepsBegunInOrder<V>(cfg: Config<V>, thread: nat -> nat, run: seq<System<V>>, n: nat)
    requires TurnRun(cfg, thread, run) && n < |run|
    ensures BegunInOrder(thread, run[n].calls)
  {
    if n == 0 {
      InitParked(cfg, thread, run[0]);
    } else {
      RunKeepsBegunInOrder(cfg, thread, run, n - 1);
      assert TurnAt(cfg, thread, run, n - 1);
      StepKeepsBegunInOrder(cfg, thread, run[n - 1], run[n]);
    }
  }

  // ---- never stuck --------------------------------------------------------------------------

  lemma UnparkedMayRun<V>(thread: nat -> nat, s: System<V>, i: nat)
    requires OneUnparked(thread, s.calls) && i < |s.calls| && !Parked(s.calls[i])
    ensures MayRun(thread, s, i)
  {
  }

  /** The first call of a thread that has not begun. */
  lemma {:induction false} FirstUnbegun<V>(thread: nat -> nat, s: System<V>, u: nat) returns (v: nat)
    requires u < |s.calls| && !Started(s.calls[u])
    ensures v <= u && thread(v) == thread(u) && !Started(s.calls[v]) && InTurn(thread, s, v)
  {
    if j: nat :| j < u && thread(j) == thread(u) && !Started(s.calls[j]) {
      v := FirstUnbegun(thread, s, j);
    } else {
      v := u;
    }
  }

  ghost predicate Blocked<V>(s: System<V>, w: nat) {
    w < |s.calls| && s.calls[w].pc.Waiting? && !Enabled(s, w)
  }

  /** In a stuck state whoever could run and is not finished waits. */
  lemma Stalled<V>(thread: nat -> nat, s: System<V>, v: nat)
    requires StuckInTurn(thread, s) && v < |s.calls| && !Finished(s.calls[v].pc)
    requires MayRun(thread, s, v) && InTurn(thread, s, v)
    ensures Blocked(s, v)
  {
  }

  lemma AllParkedMayRun<V>(thread: nat -> nat, s: System<V>, u: nat, v: nat)
    requires forall i: nat :: i < |s.calls| && thread(i) == thread(u) ==> Parked(s.calls[i])
    requires thread(v) == thread(u)
    ensures MayRun(thread, s, v)
  {
  }

  /** In a stuck state the thread of an unfinished call has a blocked waiter. */
  lemma BlockedOn<V>(thread: nat -> nat, s: System<V>, u: nat) returns (w: nat)
    requires StuckInTurn(thread, s) && OneUnparked(thread, s.calls) && u < |s.calls| && !Finished(s.calls[u].pc)
    ensures Blocked(s, w) && thread(w) == thread(u)
  {
    if v: nat :| v < |s.calls| && thread(v) == thread(u) && !Parked(s.calls[v]) {
      UnparkedMayRun(thread, s, v);
      w := v;
    } else {
      w := u;
      if !Started(s.calls[u]) {
        w := FirstUnbegun(thread, s, u);
      }
      AllParkedMayRun(thread, s, u, w);
    }
    Stalled(thread, s, w);
  }

  /** The key a blocked call waits for. */
  ghost function Awaited<V>(s: System<V>, w: nat): Key
    requires w < |s.calls| && |s.calls[w].out| < |s.calls[w].keys|
  {
    s.calls[w].keys[|s.calls[w].out|]
  }

  /** Call j owes `key`, which stands before whatever it still has to claim. */
  ghost predicate OwesBehind<V>(s: System<V>, j: nat, key: Key) {
    && j < |s.calls| && Shape(s.calls[j]) && key in Owed(s.calls[j])
    && !Finished(s.calls[j].pc) && Started(s.calls[j])
    && exists p :: 0 <= p < |s.calls[j].out| && s.calls[j].keys[p] == key
  }

  lemma BlockedByOwner<V>(cfg: Config<V>, thread: nat -> nat, s: System<V>, w: nat) returns (j: nat)
    requires Inv(cfg, s) && StuckInTurn(thread, s) && OneUnparked(thread, s.calls) && Blocked(s, w)
    ensures |s.calls[w].out| < |s.calls[w].keys| && OwesBehind(s, j, Awaited(s, w))
  {
    j := OwnerOfAwaited(cfg, s, w);
    if !Parked(s.calls[j]) {
      UnparkedMayRun(thread, s, j);
      Stalled(thread, s, j);
    }
  }

  /** A waiter is not behind a begun call of its thread. */
  lemma WaiterIsLatest<V>(thread: nat -> nat, calls: seq<Call<V>>, j: nat, v: nat)
    requires BegunInOrder(thread, calls) && j < |calls| && v < |calls| && thread(j) == thread(v)
    requires Started(calls[j]) && calls[v].pc.Waiting?
    ensures j <= v
  {
  }

  lemma RankedAbove<V>(thread: nat -> nat, s: System<V>, rank: Key -> int, j: nat, v: nat, key: Key)
    requires CommonOrder(s.calls, rank) && RankedThreads(thread, s.calls, rank)
    requires OwesBehind(s, j, key) && j <= v < |s.calls| && thread(j) == thread(v)
    requires |s.calls[v].out| < |s.calls[v].keys|
    ensures rank(key) < rank(Awaited(s, v))
  {
    var p :| 0 <= p < |s.calls[j].out| && s.calls[j].keys[p] == key;
    if j == v {
      assert Ascending(s.calls[j].keys, rank);
    } else {
      assert AllBelow(s.calls[j].keys, s.calls[v].keys, rank);
    }
  }

  /** The thread of the owner of an awaited key has a waiter for a key of higher rank. */
  lemma WaiterAbove<V>(cfg: Config<V>, thread: nat -> nat, s: System<V>, rank: Key -> int, w: nat) returns (v: nat)
    requires Inv(cfg, s) && StuckInTurn(thread, s) && OneUnparked(thread, s.calls) && BegunInOrder(thread, s.calls)
    requires CommonOrder(s.calls, rank) && RankedThreads(thread, s.calls, rank) && Blocked(s, w)
    ensures Blocked(s, v) && |s.calls[w].out| < |s.calls[w].keys| && |s.calls[v].out| < |s.calls[v].keys|
    ensures rank(Awaited(s, w)) < rank(Awaited(s, v))
  {
    var j := BlockedByOwner(cfg, thread, s, w);
    v := BlockedOn(thread, s, j);
    WaiterIsLatest(thread, s.calls, j, v);
    assert Shape(s.calls[v]);
    RankedAbove(thread, s, rank, j, v, Awaited(s, w));
  }

  lemma {:induction false} NoneBlocked<V>(cfg: Config<V>, thread: nat -> nat, s: System<V>, rank: Key -> int,
                                          bound: int, w: nat)
    requires Inv(cfg, s) && StuckInTurn(thread, s) && OneUnparked(thread, s.calls) && BegunInOrder(thread, s.calls)
    requires CommonOrder(s.calls, rank) && RankedThreads(thread, s.calls, rank)
    requires forall i, p :: 0 <= i < |s.calls| && 0 <= p < |s.calls[i].keys| ==> rank(s.calls[i].keys[p]) <= bound
    requires Blocked(s, w) && |s.calls[w].out| < |s.calls[w].keys|
    ensures false
    decreases bound - rank(Awaited(s, w))
  {
    var v := WaiterAbove(cfg, thread, s, rank, w);
    NoneBlocked(cfg, thread, s, rank, bound, v);
  }

  lemma RankedStateNotStuck<V>(cfg: Config<V>, thread: nat -> nat, s: System<V>, rank: Key -> int)
    requires Inv(cfg, s) && OneUnparked(thread, s.calls) && BegunInOrder(thread, s.calls)
    requires CommonOrder(s.calls, rank) && RankedThreads(thread, s.calls, rank)
    ensures !StuckInTurn(thread, s)
  {
    if StuckInTurn(thread, s) {
      var u: nat :| u < |s.calls| && !Finished(s.calls[u].pc);
      var w := BlockedOn(thread, s, u);
      assert Shape(s.calls[w]);
      var bound := RankBoundAll(s.calls, rank);
      NoneBlocked(cfg, thread, s, rank, bound, w);
    }
  }

  /** Any number of calls on any threads, each thread beginning its calls in turn: if every claim list ascends in one
      ranking and on each thread the keys of an earlier call rank below those of a later one, nothing is ever stuck. */
  lemma RankedThreadsNeverStick<V>(cfg: Config<V>, thread: nat -> nat, run: seq<System<V>>, rank: Key -> int)
    requires TurnRun(cfg, thread, run)
    requires CommonOrder(run[0].calls, rank) && RankedThreads(thread, run[0].calls, rank)
    ensures !StuckInTurn(thread, run[|run| - 1])
  {
    var n := |run| - 1;
    TurnRunIsThreaded(cfg, thread, run);
    ThreadedRunIsRun(cfg, thread, run);
    RunKeepsInv(cfg, run, n);
    RunKeepsKeys(cfg, run, n);
    RunKeepsOneUnparked(cfg, thread, run, n);
    RunKeepsBegunInOrder(cfg, thread, run, n);
    SameKeysSameRanks(thread, run[0].calls, run[n].calls, rank);
    RankedStateNotStuck(cfg, thread, run[n], rank);
  }

  lemma SameKeysSameRanks<V>(thread: nat -> nat, calls: seq<Call<V>>, calls': seq<Call<V>>, rank: Key -> int)
    requires SameKeys(calls, calls') && CommonOrder(calls, rank) && RankedThreads(thread, calls, rank)
    ensures CommonOrder(calls', rank) && RankedThreads(thread, calls', rank)
  {
  }

  ghost predicate OwnThreads(thread: nat -> nat, n: nat) {
    forall i: nat, j: nat :: i < j < n ==> thread(i) != thread(j)
  }

  /** With threads of their own every call is in turn at any time. */
  lemma OwnThreadsTakeTurns<V>(cfg: Config<V>, thread: nat -> nat, run: seq<System<V>>)
    requires ThreadedRun(cfg, thread, run) && OwnThreads(thread, |run[0].calls|)
    ensures TurnRun(cfg, thread, run)
  {
    ThreadedRunIsRun(cfg, thread, run);
    forall n | 0 <= n < |run| - 1 ensures TurnAt(cfg, thread, run, n) {
      RunKeepsKeys(cfg, run, n);
      assert ThreadedAt(cfg, thread, run, n);
      var i: nat, fail :| StepOf(cfg, run[n], i, fail, run[n + 1]) && MayRun(thread, run[n], i);
      assert TurnStepOf(cfg, thread, run[n], i, fail, run[n + 1]);
    }
  }

  /** The case of one thread per call: a common claim order is enough. */
  lemma OwnThreadsAndCommonOrderNeverStick<V>(cfg: Config<V>, thread: nat -> nat, run: seq<System<V>>, rank: Key -> int)
    requires ThreadedRun(cfg, thread, run) && OwnThreads(thread, |run[0].calls|)
    requires CommonOrder(run[0].calls, rank)
    ensures !StuckOn(thread, run[|run| - 1])
  {
    OwnThreadsTakeTurns(cfg, thread, run);
    RankedThreadsNeverStick(cfg, thread, run, rank);
  }
}
