/** Four calls on two threads: no two calls of a thread share a tile and every ranking of the tiles is a common claim
    order, and yet they can block each other for good. */
module FetchFour {
  import opened Wrappers
  import opened Arrays
  import opened TileStore
  import opened TileSource
  import opened FetchProtocol
  import opened FetchInvariant
  import opened FetchProgress
  import opened FetchThreads
  import opened FetchClaims
  import opened FetchDeadlock

  /** Calls 0 and 1 on one thread, calls 2 and 3 on another. */
  ghost predicate TwoByTwo(thread: nat -> nat) {
    thread(0) == thread(1) && thread(2) == thread(3) && thread(0) != thread(2)
  }

  /** The calls of each thread ask for two tiles in turn, those of the other thread the other way round. */
  ghost predicate Four<V>(cfg: Config<V>, s: System<V>, k: Key, l: Key) {
    && Init(cfg, s) && |s.calls| == 4 && k != l && !Has(s.store.ready, k) && !Has(s.store.ready, l)
    && s.calls[0].keys == [k] && s.calls[1].keys == [l] && s.calls[2].keys == [l] && s.calls[3].keys == [k]
    && Fresh(s.calls[0]) && Fresh(s.calls[1]) && Fresh(s.calls[2]) && Fresh(s.calls[3])
  }

  /** Call i, whose one key nobody holds or fetches, claims it and awaits its fetch. */
  lemma ClaimOneAndFetch<V>(cfg: Config<V>, thread: nat -> nat, run: seq<System<V>>, i: nat, key: Key)
      returns (longer: seq<System<V>>)
    requires TurnRun(cfg, thread, run) && Scheduled(thread, run[|run| - 1], i)
    requires Fresh(run[|run| - 1].calls[i]) && run[|run| - 1].calls[i].keys == [key]
    requires key !in run[|run| - 1].store.pending && !Has(run[|run| - 1].store.ready, key)
    ensures TurnRun(cfg, thread, longer) && longer[0] == run[0]
    ensures FetchesToo(run[|run| - 1], longer[|longer| - 1], i, key)
  {
    var s := run[|run| - 1];
    var claimed := ClaimStretch(cfg, thread, run, i, 1);
    var t := claimed[|claimed| - 1];
    EndsInInv(cfg, thread, run);
    EndsInInv(cfg, thread, claimed);
    ClaimedIt(s, t, i, key);
    GrantedIt(cfg, s, t, i, key);
    longer := GoFetch(cfg, thread, claimed, i);
  }

  /** Going from s to t call i has been granted its key, and nothing else has changed. */
  ghost predicate FetchesToo<V>(s: System<V>, t: System<V>, i: nat, key: Key) {
    && i < |s.calls| && |t.calls| == |s.calls| && t.calls == s.calls[i := t.calls[i]]
    && t.calls[i].pc.Fetching? && SameResident(t.store.ready, s.store.ready)
    && forall k :: k in t.store.pending <==> k in s.store.pending || k == key
  }

  lemma ClaimedIt<V>(s: System<V>, t: System<V>, i: nat, key: Key)
    requires ClaimedUpTo(s, t, i, 1) && s.calls[i].keys == [key] && s.calls[i].out == [] && !Has(s.store.ready, key)
    ensures key in t.store.pending && |t.calls[i].out| == |t.calls[i].keys|
    ensures FetchesToo(s, Move(t, i, Fetching), i, key)
  {
    assert [key][0..1] == [key];
  }

  /** A key that has become pending by the claims of call i is owed by call i. */
  lemma GrantedIt<V>(cfg: Config<V>, s: System<V>, t: System<V>, i: nat, key: Key)
    requires Inv(cfg, s) && Inv(cfg, t)
    requires i < |s.calls| && |t.calls| == |s.calls| && t.calls == s.calls[i := t.calls[i]]
    requires key !in s.store.pending && key in t.store.pending
    ensures t.calls[i].misses != []
  {
    forall j: nat | j < |t.calls| && j != i ensures key !in OwedBy(t.calls)[j] {
      assert OwedBy(s.calls)[j] <= s.store.pending.Keys;
    }
    assert OwedBySome(OwedBy(t.calls), key);
  }

  lemma BothFetch<V>(cfg: Config<V>, thread: nat -> nat, s: System<V>, k: Key, l: Key) returns (run: seq<System<V>>)
    requires Four(cfg, s, k, l) && TwoByTwo(thread)
    ensures TurnRun(cfg, thread, run) && run[0] == s
    ensures var t := run[|run| - 1];
            && |t.calls| == 4 && t.calls[0].pc.Fetching? && t.calls[2].pc.Fetching?
            && t.calls[1] == s.calls[1] && t.calls[3] == s.calls[3] && k in t.store.pending && l in t.store.pending
  {
    run := [s];
    run := ClaimOneAndFetch(cfg, thread, run, 0, k);
    run := ClaimOneAndFetch(cfg, thread, run, 2, l);
  }

  /** The run: each thread's first call awaits its fetch when its second blocks the thread on the other's tile. */
  lemma FourCanStick<V>(cfg: Config<V>, thread: nat -> nat, s: System<V>, k: Key, l: Key) returns (run: seq<System<V>>)
    requires Four(cfg, s, k, l) && TwoByTwo(thread)
    ensures TurnRun(cfg, thread, run) && run[0] == s && StuckOn(thread, run[|run| - 1])
    ensures forall rank: Key -> int :: CommonOrder(s.calls, rank) && !RankedThreads(thread, s.calls, rank)
    ensures !ShareKey(s.calls[0].keys, s.calls[1].keys) && !ShareKey(s.calls[2].keys, s.calls[3].keys)
  {
    run := BothFetch(cfg, thread, s, k, l);
    run := GoWait(cfg, thread, run, 1, l);
    run := GoWait(cfg, thread, run, 3, k);
    StuckCrosswise(thread, run[|run| - 1]);
    forall rank: Key -> int ensures CommonOrder(s.calls, rank) && !RankedThreads(thread, s.calls, rank) {
      EitherOrderFails(cfg, thread, s, k, l, rank);
    }
  }

  lemma NotAllBelow(a: Key, b: Key, rank: Key -> int)
    requires rank(b) <= rank(a)
    ensures !AllBelow([a], [b], rank)
  {
    assert rank([a][0]) >= rank([b][0]);
  }

  /** No ranking puts the keys of both threads in the order of their calls. */
  lemma EitherOrderFails<V>(cfg: Config<V>, thread: nat -> nat, s: System<V>, k: Key, l: Key, rank: Key -> int)
    requires Four(cfg, s, k, l) && TwoByTwo(thread)
    ensures CommonOrder(s.calls, rank) && !RankedThreads(thread, s.calls, rank)
  {
    if rank(k) < rank(l) {
      NotAllBelow(l, k, rank);
    } else {
      NotAllBelow(k, l, rank);
    }
  }

  lemma StuckCrosswise<V>(thread: nat -> nat, s: System<V>)
    requires |s.calls| == 4 && TwoByTwo(thread) && !Enabled(s, 1) && !Enabled(s, 3)
    requires s.calls[1].pc.Waiting? && s.calls[3].pc.Waiting?
    ensures StuckOn(thread, s)
  {
    forall i: nat | i < 4 && Enabled(s, i) ensures !MayRun(thread, s, i) {
      assert i == 0 || i == 2;
      assert !Parked(s.calls[i + 1]);
    }
  }
}
