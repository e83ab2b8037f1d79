/** Any number of calls, each on a thread of its own: some cache contents let them block each other for good exactly
    when no ranking makes every claim list ascend. */
module FetchRings {
  import opened Wrappers
  import opened Arrays
  import opened TileStore
  import opened TileSource
  import opened FetchProtocol
  import opened FetchInvariant
  import opened FetchProgress
  import opened FetchThreads
  import opened FetchClaims
  import opened FetchDeadlock
  import opened FetchCaches
  import opened KeyCycles
  import Laws = TileStoreLaws

  /** Calls for the lists, about to start over a cache that lacks just the keys of `cold` among theirs. */
  ghost predicate StartsCold<V>(cfg: Config<V>, s: System<V>, lists: seq<seq<Key>>, cold: set<Key>) {
    && Starting(cfg, s, lists)
    && forall i: nat, p: nat {:trigger ResidentUnlessCold(s, lists[i][p], cold)} ::
         i < |lists| && p < |lists[i]| ==> ResidentUnlessCold(s, lists[i][p], cold)
  }

  ghost predicate ResidentUnlessCold<V>(s: System<V>, k: Key, cold: set<Key>) {
    Has(s.store.ready, k) <==> k !in cold
  }

  ghost predicate Starting<V>(cfg: Config<V>, s: System<V>, lists: seq<seq<Key>>) {
    && Init(cfg, s) && |s.calls| == |lists|
    && forall i {:trigger StartsWith(s, lists, i)} :: 0 <= i < |lists| ==> StartsWith(s, lists, i)
  }

  ghost predicate StartsWith<V>(s: System<V>, lists: seq<seq<Key>>, i: nat)
    requires |s.calls| == |lists| && i < |lists|
  {
    Fresh(s.calls[i]) && s.calls[i].keys == lists[i]
  }

  // ---- the ring claims ----------------------------------------------------------------------

  /** Call i has claimed up to position q. */
  ghost predicate Stopped<V>(t: System<V>, lists: seq<seq<Key>>, i: nat, q: nat) {
    && i < |t.calls| && i < |lists| && q < |lists[i]|
    && t.calls[i].pc.Claiming? && t.calls[i].keys == lists[i] && |t.calls[i].out| == q
  }

  ghost predicate KeepsResident<V>(s: System<V>, t: System<V>) {
    forall k {:trigger StillThere(s, t, k)} :: StillThere(s, t, k)
  }

  ghost predicate StillThere<V>(s: System<V>, t: System<V>, k: Key) {
    Has(t.store.ready, k) <==> Has(s.store.ready, k)
  }

  /** The plan gives call i none of these keys. */
  ghost predicate Spared(plan: map<Key, (nat, nat)>, done: set<Key>, i: nat)
    requires done <= plan.Keys
  {
    forall k {:trigger Gives(plan, k, i)} :: k in done ==> !Gives(plan, k, i)
  }

  ghost predicate Gives(plan: map<Key, (nat, nat)>, k: Key, i: nat) {
    k in plan && plan[k].0 == i
  }

  /** The calls that the plan gives the keys of `done` have claimed up to their stops; the others have not begun. */
  ghost predicate RingClaimed<V>(s: System<V>, t: System<V>, lists: seq<seq<Key>>, plan: map<Key, (nat, nat)>,
                                 done: set<Key>)
    requires done <= plan.Keys
  {
    && |t.calls| == |s.calls| && KeepsResident(s, t) && t.store.pending.Keys == done
    && (forall k {:trigger Stopped(t, lists, plan[k].0, plan[k].1)} :: k in done ==>
          Stopped(t, lists, plan[k].0, plan[k].1))
    && forall i: nat {:trigger Spared(plan, done, i)} :: i < |t.calls| && Spared(plan, done, i) ==>
         t.calls[i] == s.calls[i]
  }

  /** Alone on its thread, a call may always take the next step. */
  lemma OwnIsScheduled<V>(thread: nat -> nat, s: System<V>, i: nat)
    requires OwnThreads(thread, |s.calls|) && i < |s.calls|
    ensures Scheduled(thread, s, i)
  {
    forall j: nat | j < |s.calls| && j != i ensures thread(j) != thread(i) {
      assert i < j ==> thread(i) != thread(j);
    }
  }

  lemma MemberIsCold<V>(cfg: Config<V>, s: System<V>, lists: seq<seq<Key>>, cold: set<Key>, i: nat, q: nat, x: Key)
    requires StartsCold(cfg, s, lists, cold) && i < |lists| && q <= |lists[i]| && x in lists[i][..q]
    ensures Has(s.store.ready, x) <==> x !in cold
  {
    var p: nat :| p < q && lists[i][p] == x;
    assert ResidentUnlessCold(s, lists[i][p], cold);
  }

  /** The next call of the ring can claim up to its stop: only its own key is not resident before, and nobody has it. */
  lemma RingCallIsFree<V>(cfg: Config<V>, s: System<V>, t: System<V>, lists: seq<seq<Key>>, plan: map<Key, (nat, nat)>,
                          done: set<Key>, k: Key)
    requires KeyRing(lists, plan.Keys, plan) && StartsCold(cfg, s, lists, plan.Keys)
    requires done <= plan.Keys && k in plan.Keys && k !in done && RingClaimed(s, t, lists, plan, done)
    ensures var (i, q) := plan[k]; i < |t.calls| && t.calls[i] == s.calls[i] && CanClaimUpTo(t, i, q)
    ensures StartsWith(s, lists, plan[k].0)
  {
    var i, q := plan[k].0, plan[k].1;
    assert BarredAt(lists, plan.Keys, k, plan[k]);
    assert StartsWith(s, lists, i);
    forall l | l in done ensures !Gives(plan, l, i) {
      assert Apart(plan, k, l);
    }
    assert Spared(plan, done, i);
    assert lists[i][0..q] == lists[i][..q];
  }

  lemma RingPending<V>(cfg: Config<V>, s: System<V>, t: System<V>, u: System<V>, lists: seq<seq<Key>>, cold: set<Key>,
                       k: Key, i: nat, q: nat)
    requires StartsCold(cfg, s, lists, cold) && KeepsResident(s, t) && k in cold
    requires Bars(lists, cold, k, i, q) && ClaimedUpTo(t, u, i, q)
    requires t.calls[i].out == [] && t.calls[i].keys == lists[i]
    ensures u.store.pending.Keys == t.store.pending.Keys + {k}
  {
    assert lists[i][0..q] == lists[i][..q];
    forall x ensures x in u.store.pending <==> x in t.store.pending || x == k {
      if x in lists[i][..q] {
        assert StillThere(s, t, x);
        MemberIsCold(cfg, s, lists, cold, i, q, x);
      }
    }
  }

  /** What one more call of the ring leaves. */
  lemma RingGrows<V>(cfg: Config<V>, s: System<V>, t: System<V>, u: System<V>, lists: seq<seq<Key>>,
                     plan: map<Key, (nat, nat)>, done: set<Key>, k: Key, more: set<Key>)
    requires KeyRing(lists, plan.Keys, plan) && StartsCold(cfg, s, lists, plan.Keys) && more == done + {k}
    requires done <= plan.Keys && k in plan.Keys && k !in done && RingClaimed(s, t, lists, plan, done)
    requires plan[k].0 < |s.calls| && t.calls[plan[k].0] == s.calls[plan[k].0] && StartsWith(s, lists, plan[k].0)
    requires ClaimedUpTo(t, u, plan[k].0, plan[k].1)
    ensures RingClaimed(s, u, lists, plan, more)
  {
    assert BarredAt(lists, plan.Keys, k, plan[k]);
    RingPending(cfg, s, t, u, lists, plan.Keys, k, plan[k].0, plan[k].1);
    forall x ensures StillThere(s, u, x) {
      assert StillThere(s, t, x);
    }
    forall l | l in more ensures Stopped(u, lists, plan[l].0, plan[l].1) {
      if l != k {
        assert Stopped(t, lists, plan[l].0, plan[l].1) && Apart(plan, k, l);
      }
    }
    forall j: nat | j < |u.calls| && Spared(plan, more, j) ensures u.calls[j] == s.calls[j] {
      assert Spared(plan, done, j) by {
        forall l | l in done ensures !Gives(plan, l, j) {
          assert l in more;
        }
      }
      assert !Gives(plan, k, j);
    }
  }

  lemma NothingClaimed<V>(cfg: Config<V>, s: System<V>, lists: seq<seq<Key>>, plan: map<Key, (nat, nat)>,
                          done: set<Key>)
    requires Init(cfg, s) && done == {}
    ensures RingClaimed(s, s, lists, plan, done)
  {
  }

  /** One call of the ring after the other claims up to its stop. */
  lemma ClaimRing<V>(cfg: Config<V>, thread: nat -> nat, s: System<V>, lists: seq<seq<Key>>,
                     plan: map<Key, (nat, nat)>) returns (run: seq<System<V>>)
    requires KeyRing(lists, plan.Keys, plan) && StartsCold(cfg, s, lists, plan.Keys) && OwnThreads(thread, |s.calls|)
    ensures TurnRun(cfg, thread, run) && run[0] == s && RingClaimed(s, run[|run| - 1], lists, plan, plan.Keys)
  {
    var done: set<Key> := {};
    run := [s];
    NothingClaimed(cfg, s, lists, plan, done);
    while done != plan.Keys
      invariant TurnRun(cfg, thread, run) && run[0] == s
      invariant done <= plan.Keys && RingClaimed(s, run[|run| - 1], lists, plan, done)
      decreases |plan.Keys| - |done|
    {
      var k, more := OneMore(plan.Keys, done);
      run := ClaimOneMore(cfg, thread, s, run, lists, plan, done, k, more);
      done := more;
    }
  }

  lemma OneMore(all: set<Key>, done: set<Key>) returns (k: Key, more: set<Key>)
    requires done <= all && done != all
    ensures k in all && k !in done && more == done + {k} && more <= all && |done| < |more| <= |all|
  {
    k :| k in all && k !in done;
    more := done + {k};
    SubsetSize(more, all);
  }

  lemma ClaimOneMore<V>(cfg: Config<V>, thread: nat -> nat, s: System<V>, run: seq<System<V>>, lists: seq<seq<Key>>,
                        plan: map<Key, (nat, nat)>, done: set<Key>, k: Key, more: set<Key>)
      returns (longer: seq<System<V>>)
    requires KeyRing(lists, plan.Keys, plan) && StartsCold(cfg, s, lists, plan.Keys) && OwnThreads(thread, |s.calls|)
    requires TurnRun(cfg, thread, run) && run[0] == s && more == done + {k}
    requires done <= plan.Keys && k in plan.Keys && k !in done && RingClaimed(s, run[|run| - 1], lists, plan, done)
    ensures TurnRun(cfg, thread, longer) && longer[0] == s
    ensures RingClaimed(s, longer[|longer| - 1], lists, plan, more)
  {
    var t := run[|run| - 1];
    RingCallIsFree(cfg, s, t, lists, plan, done, k);
    OwnIsScheduled(thread, t, plan[k].0);
    longer := ClaimStretch(cfg, thread, run, plan[k].0, plan[k].1);
    RingGrows(cfg, s, t, longer[|longer| - 1], lists, plan, done, k, more);
  }

  // ---- the ring waits -----------------------------------------------------------------------

  /** Call i waits, at position q, for the pending key there. */
  ghost predicate WaitsAt<V>(t: System<V>, lists: seq<seq<Key>>, i: nat, q: nat) {
    && i < |t.calls| && i < |lists| && q < |lists[i]| && t.calls[i].keys == lists[i] && |t.calls[i].out| == q
    && lists[i][q] in t.store.pending && t.calls[i].pc == Waiting(t.store.pending[lists[i][q]])
  }

  /** The ring has claimed, the calls of `waiting` have gone to wait, and the rest have not begun. */
  ghost predicate RingWaits<V>(s: System<V>, t: System<V>, lists: seq<seq<Key>>, plan: map<Key, (nat, nat)>,
                               waiting: set<Key>) {
    && |t.calls| == |s.calls| && t.store.pending.Keys == plan.Keys
    && (forall k {:trigger WaitsAt(t, lists, plan[k].0, plan[k].1)} :: k in plan.Keys && k in waiting ==>
          WaitsAt(t, lists, plan[k].0, plan[k].1))
    && (forall k {:trigger Stopped(t, lists, plan[k].0, plan[k].1)} :: k in plan.Keys && k !in waiting ==>
          Stopped(t, lists, plan[k].0, plan[k].1))
    && forall i: nat {:trigger Spared(plan, plan.Keys, i)} :: i < |t.calls| && Spared(plan, plan.Keys, i) ==>
         t.calls[i] == s.calls[i]
  }

  lemma OneMoreWaits<V>(s: System<V>, t: System<V>, lists: seq<seq<Key>>, plan: map<Key, (nat, nat)>, waiting: set<Key>,
                        k: Key, more: set<Key>, u: System<V>)
    requires KeyRing(lists, plan.Keys, plan) && RingWaits(s, t, lists, plan, waiting)
    requires k in plan.Keys && k !in waiting && more == waiting + {k} && Stopped(t, lists, plan[k].0, plan[k].1)
    requires lists[plan[k].0][plan[k].1] in t.store.pending
    requires u == WaitingOn(t, plan[k].0, t.store.pending[lists[plan[k].0][plan[k].1]])
    ensures RingWaits(s, u, lists, plan, more)
  {
    forall l | l in plan.Keys && l in more ensures WaitsAt(u, lists, plan[l].0, plan[l].1) {
      assert l != k ==> WaitsAt(t, lists, plan[l].0, plan[l].1) && Apart(plan, k, l);
    }
    forall l | l in plan.Keys && l !in more ensures Stopped(u, lists, plan[l].0, plan[l].1) {
      assert Stopped(t, lists, plan[l].0, plan[l].1) && Apart(plan, k, l);
    }
    forall i: nat | i < |u.calls| && Spared(plan, plan.Keys, i) ensures u.calls[i] == s.calls[i] {
      assert !Gives(plan, k, i);
    }
  }

  lemma StopIsPending<V>(s: System<V>, t: System<V>, lists: seq<seq<Key>>, plan: map<Key, (nat, nat)>,
                         waiting: set<Key>, k: Key)
    requires KeyRing(lists, plan.Keys, plan) && RingWaits(s, t, lists, plan, waiting) && k in plan.Keys && k !in waiting
    ensures Stopped(t, lists, plan[k].0, plan[k].1) && lists[plan[k].0][plan[k].1] in t.store.pending
  {
    assert BarredAt(lists, plan.Keys, k, plan[k]);
    assert Stopped(t, lists, plan[k].0, plan[k].1);
  }

  /** One call of the ring after the other goes to wait. */
  lemma WaitRing<V>(cfg: Config<V>, thread: nat -> nat, s: System<V>, start: seq<System<V>>, lists: seq<seq<Key>>,
                    plan: map<Key, (nat, nat)>) returns (run: seq<System<V>>)
    requires KeyRing(lists, plan.Keys, plan) && OwnThreads(thread, |s.calls|)
    requires TurnRun(cfg, thread, start) && start[0] == s && RingWaits(s, start[|start| - 1], lists, plan, {})
    ensures TurnRun(cfg, thread, run) && run[0] == s && RingWaits(s, run[|run| - 1], lists, plan, plan.Keys)
  {
    var waiting: set<Key> := {};
    run := start;
    while waiting != plan.Keys
      invariant TurnRun(cfg, thread, run) && run[0] == s
      invariant waiting <= plan.Keys && RingWaits(s, run[|run| - 1], lists, plan, waiting)
      decreases |plan.Keys| - |waiting|
    {
      var k, more := OneMore(plan.Keys, waiting);
      run := WaitOneMore(cfg, thread, s, run, run[|run| - 1], lists, plan, waiting, k, more);
      waiting := more;
    }
  }

  lemma WaitOneMore<V>(cfg: Config<V>, thread: nat -> nat, s: System<V>, run: seq<System<V>>, t: System<V>,
                       lists: seq<seq<Key>>, plan: map<Key, (nat, nat)>, waiting: set<Key>, k: Key,
                       more: set<Key>) returns (longer: seq<System<V>>)
    requires KeyRing(lists, plan.Keys, plan) && OwnThreads(thread, |s.calls|)
    requires TurnRun(cfg, thread, run) && run[0] == s && t == run[|run| - 1]
    requires k in plan.Keys && k !in waiting && more == waiting + {k} && RingWaits(s, t, lists, plan, waiting)
    ensures TurnRun(cfg, thread, longer) && longer[0] == s
    ensures RingWaits(s, longer[|longer| - 1], lists, plan, more)
  {
    StopIsPending(s, t, lists, plan, waiting, k);
    OwnIsScheduled(thread, t, plan[k].0);
    longer := GoWait(cfg, thread, run, plan[k].0, lists[plan[k].0][plan[k].1]);
    OneMoreWaits(s, t, lists, plan, waiting, k, more, longer[|longer| - 1]);
  }

  // ---- a jam lasts --------------------------------------------------------------------------

  /** Call b waits for a pending key that another call of the jam owes. */
  ghost predicate JammedAt<V>(s: System<V>, jam: set<nat>, b: nat) {
    && b < |s.calls| && s.calls[b].pc.Waiting? && |s.calls[b].out| < |s.calls[b].keys|
    && Awaited(s, b) in s.store.pending && s.store.pending[Awaited(s, b)] == s.calls[b].pc.sig
    && exists o :: o in jam && OwesKey(s, o, Awaited(s, b))
  }

  ghost predicate OwesKey<V>(s: System<V>, o: nat, key: Key) {
    o < |s.calls| && Shape(s.calls[o]) && key in Owed(s.calls[o])
  }

  ghost predicate Jam<V>(s: System<V>, jam: set<nat>) {
    jam != {} && forall b {:trigger JammedAt(s, jam, b)} :: b in jam ==> JammedAt(s, jam, b)
  }

  lemma JammedIsDisabled<V>(cfg: Config<V>, s: System<V>, jam: set<nat>, b: nat)
    requires Inv(cfg, s) && JammedAt(s, jam, b)
    ensures !Enabled(s, b)
  {
  }

  /** A step leaves pending what its call does not settle. */
  lemma UnsettledStaysPending<V>(cfg: Config<V>, s: System<V>, i: nat, fail: bool, t: System<V>, key: Key)
    requires StepOf(cfg, s, i, fail, t) && key in s.store.pending
    requires s.calls[i].settled < |s.calls[i].misses| ==> CurrentKey(s.calls[i]) != key
    ensures key in t.store.pending && t.store.pending[key] == s.store.pending[key]
  {
  }

  lemma OwedApart<V>(cfg: Config<V>, s: System<V>, i: nat, o: nat, key: Key)
    requires Inv(cfg, s) && i < |s.calls| && o != i && OwesKey(s, o, key)
    ensures Shape(s.calls[i]) && key !in Owed(s.calls[i])
  {
    SetsApart(OwedBy(s.calls), s.store.pending.Keys, i, o, key);
  }

  lemma SetsApart(owed: seq<set<Key>>, pending: set<Key>, i: nat, o: nat, key: Key)
    requires Owners(owed, pending) && i < |owed| && o < |owed| && i != o && key in owed[o]
    ensures key !in owed[i]
  {
    if i < o {
      assert owed[i] !! owed[o];
    } else {
      assert owed[o] !! owed[i];
    }
  }

  /** What one call owes, a step of another leaves pending under its signal. */
  lemma OwedStaysPending<V>(cfg: Config<V>, s: System<V>, i: nat, fail: bool, t: System<V>, o: nat, key: Key)
    requires Inv(cfg, s) && StepOf(cfg, s, i, fail, t) && o != i && OwesKey(s, o, key) && key in s.store.pending
    ensures key in t.store.pending && t.store.pending[key] == s.store.pending[key]
  {
    OwedApart(cfg, s, i, o, key);
    CurrentIsOwed(s.calls[i], key);
    UnsettledStaysPending(cfg, s, i, fail, t, key);
  }

  lemma CurrentIsOwed<V>(c: Call<V>, key: Key)
    requires Shape(c) && key !in Owed(c)
    ensures c.settled < |c.misses| ==> CurrentKey(c) != key
  {
    if c.settled < |c.misses| {
      assert c.keys[c.misses[c.settled]] in Owed(c);
    }
  }

  /** A step of a call outside the jam that keeps the awaited key pending keeps the wait. */
  lemma WaitUntouched<V>(s: System<V>, t: System<V>, i: nat, jam: set<nat>, b: nat, o: nat, key: Key)
    requires OnlyMoves(s.calls, t.calls, i) && i !in jam && b in jam && o in jam && OwesKey(s, o, key)
    requires b < |s.calls| && s.calls[b].pc.Waiting? && |s.calls[b].out| < |s.calls[b].keys| && key == Awaited(s, b)
    requires key in t.store.pending && t.store.pending[key] == s.calls[b].pc.sig
    ensures JammedAt(t, jam, b)
  {
    assert OwesKey(t, o, key);
  }

  lemma JammedAtStays<V>(cfg: Config<V>, s: System<V>, i: nat, fail: bool, t: System<V>, jam: set<nat>, b: nat)
    requires Inv(cfg, s) && StepOf(cfg, s, i, fail, t) && JammedAt(s, jam, b) && i !in jam && b in jam
    ensures JammedAt(t, jam, b)
  {
    StepMoves(cfg, s, i, fail, t);
    var o :| o in jam && OwesKey(s, o, Awaited(s, b));
    OwedStaysPending(cfg, s, i, fail, t, o, Awaited(s, b));
    WaitUntouched(s, t, i, jam, b, o, Awaited(s, b));
  }

  lemma JamStays<V>(cfg: Config<V>, s: System<V>, i: nat, fail: bool, t: System<V>, jam: set<nat>)
    requires Inv(cfg, s) && StepOf(cfg, s, i, fail, t) && Jam(s, jam)
    ensures Jam(t, jam)
  {
    if i in jam {
      assert JammedAt(s, jam, i);
      JammedIsDisabled(cfg, s, jam, i);
    }
    forall b {:trigger JammedAt(t, jam, b)} | b in jam ensures JammedAt(t, jam, b) {
      assert JammedAt(s, jam, b);
      JammedAtStays(cfg, s, i, fail, t, jam, b);
    }
  }

  // ---- until nothing moves ------------------------------------------------------------------

  lemma SomeStep<V>(cfg: Config<V>, s: System<V>, j: nat) returns (i: nat, fail: bool, t: System<V>)
    requires Inv(cfg, s) && j < |s.calls| && Enabled(s, j)
    ensures StepOf(cfg, s, i, fail, t) && StepsLeft(t) < StepsLeft(s)
  {
    t := EnabledCanStep(cfg, s, j);
    i, fail :| StepOf(cfg, s, i, fail, t);
    StepSpendsOne(cfg, s, t);
  }

  lemma OneStepOn<V>(cfg: Config<V>, thread: nat -> nat, run: seq<System<V>>, s: System<V>, jam: set<nat>, j: nat)
      returns (t: System<V>)
    requires TurnRun(cfg, thread, run) && s == run[|run| - 1] && OwnThreads(thread, |s.calls|) && Jam(s, jam)
    requires j < |s.calls| && Enabled(s, j)
    ensures TurnRun(cfg, thread, run + [t]) && Jam(t, jam) && |t.calls| == |s.calls|
    ensures 0 <= StepsLeft(t) < StepsLeft(s)
  {
    EndsInInv(cfg, thread, run);
    var i, fail, u := SomeStep(cfg, s, j);
    t := u;
    JamStays(cfg, s, i, fail, t, jam);
    StepMoves(cfg, s, i, fail, t);
    OwnIsScheduled(thread, s, i);
    ExtendRun(cfg, thread, run, i, fail, t);
    StepKeepsInv(cfg, s, i, fail, t);
    StepsLeftNonNegative(cfg, t);
  }

  lemma {:induction false} UntilNothingMoves<V>(cfg: Config<V>, thread: nat -> nat, run: seq<System<V>>, jam: set<nat>)
      returns (longer: seq<System<V>>)
    requires TurnRun(cfg, thread, run) && OwnThreads(thread, |run[|run| - 1].calls|) && Jam(run[|run| - 1], jam)
    requires StepsLeft(run[|run| - 1]) >= 0
    ensures TurnRun(cfg, thread, longer) && longer[0] == run[0] && StuckOn(thread, longer[|longer| - 1])
    decreases StepsLeft(run[|run| - 1])
  {
    var s := run[|run| - 1];
    if j: nat :| j < |s.calls| && Enabled(s, j) {
      var t := OneStepOn(cfg, thread, run, s, jam, j);
      longer := UntilNothingMoves(cfg, thread, run + [t], jam);
    } else {
      longer := run;
      JamIsUnfinished(s, jam);
    }
  }

  lemma JamIsUnfinished<V>(s: System<V>, jam: set<nat>)
    requires Jam(s, jam)
    ensures !AllFinished(s)
  {
    var b :| b in jam;
    assert JammedAt(s, jam, b);
  }

  // ---- the run that sticks ------------------------------------------------------------------

  ghost function Callers(plan: map<Key, (nat, nat)>): set<nat> {
    set k | k in plan.Keys :: plan[k].0
  }

  lemma OthersOweNothing<V>(cfg: Config<V>, s: System<V>, t: System<V>, lists: seq<seq<Key>>,
                            plan: map<Key, (nat, nat)>, o: nat)
    requires Starting(cfg, s, lists) && RingWaits(s, t, lists, plan, plan.Keys)
    requires o < |t.calls| && o !in Callers(plan) && Shape(t.calls[o])
    ensures Owed(t.calls[o]) == {}
  {
    forall k | k in plan.Keys ensures !Gives(plan, k, o) {
      assert plan[k].0 in Callers(plan);
    }
    assert Spared(plan, plan.Keys, o);
    assert StartsWith(s, lists, o);
  }

  lemma OwerIsCaller<V>(cfg: Config<V>, s: System<V>, t: System<V>, lists: seq<seq<Key>>, plan: map<Key, (nat, nat)>,
                        o: nat, key: Key)
    requires Starting(cfg, s, lists) && RingWaits(s, t, lists, plan, plan.Keys) && OwesKey(t, o, key)
    ensures o in Callers(plan)
  {
    if o !in Callers(plan) {
      OthersOweNothing(cfg, s, t, lists, plan, o);
    }
  }

  lemma PendingHasOwner<V>(cfg: Config<V>, t: System<V>, key: Key) returns (o: nat)
    requires Inv(cfg, t) && key in t.store.pending
    ensures OwesKey(t, o, key)
  {
    assert OwedBySome(OwedBy(t.calls), key);
    o :| o < |OwedBy(t.calls)| && key in OwedBy(t.calls)[o];
  }

  lemma OwnerIsCaller<V>(cfg: Config<V>, s: System<V>, t: System<V>, lists: seq<seq<Key>>, plan: map<Key, (nat, nat)>,
                         key: Key) returns (o: nat)
    requires Inv(cfg, t) && Starting(cfg, s, lists) && RingWaits(s, t, lists, plan, plan.Keys) && key in plan.Keys
    ensures o in Callers(plan) && OwesKey(t, o, key)
  {
    o := PendingHasOwner(cfg, t, key);
    OwerIsCaller(cfg, s, t, lists, plan, o, key);
  }

  lemma RingCallIsJammed<V>(cfg: Config<V>, s: System<V>, t: System<V>, lists: seq<seq<Key>>,
                            plan: map<Key, (nat, nat)>, k: Key)
    requires Inv(cfg, t) && Starting(cfg, s, lists) && KeyRing(lists, plan.Keys, plan) && k in plan.Keys
    requires RingWaits(s, t, lists, plan, plan.Keys)
    ensures JammedAt(t, Callers(plan), plan[k].0)
  {
    assert WaitsAt(t, lists, plan[k].0, plan[k].1);
    assert BarredAt(lists, plan.Keys, k, plan[k]);
    var o := OwnerIsCaller(cfg, s, t, lists, plan, lists[plan[k].0][plan[k].1]);
  }

  lemma RingIsJam<V>(cfg: Config<V>, s: System<V>, t: System<V>, lists: seq<seq<Key>>, plan: map<Key, (nat, nat)>)
    requires Inv(cfg, t) && Starting(cfg, s, lists) && KeyRing(lists, plan.Keys, plan)
    requires RingWaits(s, t, lists, plan, plan.Keys)
    ensures Jam(t, Callers(plan))
  {
    var jam := Callers(plan);
    var k :| k in plan.Keys;
    assert plan[k].0 in jam;
    forall b {:trigger JammedAt(t, jam, b)} | b in jam ensures JammedAt(t, jam, b) {
      var l :| l in plan.Keys && plan[l].0 == b;
      RingCallIsJammed(cfg, s, t, lists, plan, l);
    }
  }

  lemma ClaimedIsReady<V>(s: System<V>, t: System<V>, lists: seq<seq<Key>>, plan: map<Key, (nat, nat)>)
    requires RingClaimed(s, t, lists, plan, plan.Keys)
    ensures RingWaits(s, t, lists, plan, {})
  {
    forall k | k in plan.Keys ensures Stopped(t, lists, plan[k].0, plan[k].1) {
    }
  }

  lemma RingSticks<V>(cfg: Config<V>, thread: nat -> nat, s: System<V>, lists: seq<seq<Key>>,
                      plan: map<Key, (nat, nat)>) returns (run: seq<System<V>>)
    requires KeyRing(lists, plan.Keys, plan) && StartsCold(cfg, s, lists, plan.Keys) && OwnThreads(thread, |s.calls|)
    ensures TurnRun(cfg, thread, run) && run[0] == s && StuckOn(thread, run[|run| - 1])
  {
    var claimed := ClaimRing(cfg, thread, s, lists, plan);
    ClaimedIsReady(s, claimed[|claimed| - 1], lists, plan);
    var waiting := WaitRing(cfg, thread, s, claimed, lists, plan);
    run := FromRing(cfg, thread, s, waiting, waiting[|waiting| - 1], lists, plan);
  }

  lemma FromRing<V>(cfg: Config<V>, thread: nat -> nat, s: System<V>, run: seq<System<V>>, t: System<V>,
                    lists: seq<seq<Key>>, plan: map<Key, (nat, nat)>) returns (longer: seq<System<V>>)
    requires KeyRing(lists, plan.Keys, plan) && Starting(cfg, s, lists) && OwnThreads(thread, |s.calls|)
    requires TurnRun(cfg, thread, run) && run[0] == s && t == run[|run| - 1] && RingWaits(s, t, lists, plan, plan.Keys)
    ensures TurnRun(cfg, thread, longer) && longer[0] == s && StuckOn(thread, longer[|longer| - 1])
  {
    EndsInInv(cfg, thread, run);
    RingIsJam(cfg, s, t, lists, plan);
    StepsLeftNonNegative(cfg, t);
    longer := UntilNothingMoves(cfg, thread, run, Callers(plan));
  }

  // ---- exactly when -------------------------------------------------------------------------

  /** Calls for the lists, about to start over `ready`, whose tiles were each fetched once. */
  ghost function StartAll<V>(lists: seq<seq<Key>>, ready: seq<Entry<V>>): System<V> {
    System(Store(ready, map[], 0, 0, |ready|, 0), {}, 0,
           seq(|lists|, i requires 0 <= i < |lists| => FreshCall(lists[i])))
  }

  /** The tiles of all the lists, each named once, decode and fit the cache together. */
  ghost predicate RoomFor<V>(cfg: Config<V>, lists: seq<seq<Key>>, pool: seq<Key>) {
    && DistinctKeys(pool) && Roomy(cfg, pool)
    && forall i, p :: 0 <= i < |lists| && 0 <= p < |lists[i]| ==> lists[i][p] in pool
  }

  lemma StockStarts<V>(cfg: Config<V>, lists: seq<seq<Key>>, pool: seq<Key>, cold: set<Key>, ready: seq<Entry<V>>)
    requires AllDistinct(lists) && RoomFor(cfg, lists, pool) && ready == Stock(cfg.source, pool, cold)
    ensures StartsCold(cfg, StartAll(lists, ready), lists, cold)
  {
    StockDistinct(cfg.source, pool, cold);
    StockBytes(cfg.source, pool, cold);
    forall e | e in ready ensures cfg.source(e.key) == Tile(e.arr) {
      StockEntries(cfg.source, pool, cold, e);
    }
    var s := StartAll(lists, ready);
    forall i: nat | i < |lists| ensures StartsWith(s, lists, i) {
    }
    forall i: nat, p: nat | i < |lists| && p < |lists[i]| ensures ResidentUnlessCold(s, lists[i][p], cold) {
      StockHas(cfg.source, pool, cold, ready, lists[i][p]);
    }
  }

  ghost predicate SomeCacheSticksAll<V(!new)>(cfg: Config<V>, thread: nat -> nat, lists: seq<seq<Key>>) {
    exists s :: Starting(cfg, s, lists) && CanStick(cfg, thread, s)
  }

  /** Over no cache of any size do calls with a common claim order stick. */
  lemma StuckMeansUnranked<V(!new)>(cfg: Config<V>, thread: nat -> nat, s: System<V>, lists: seq<seq<Key>>,
                                    rank: Key -> int)
    requires Starting(cfg, s, lists) && OwnThreads(thread, |lists|) && CanStick(cfg, thread, s)
    ensures !Ranked(lists, rank)
  {
    var run :| StuckRun(cfg, thread, s, run);
    if Ranked(lists, rank) {
      forall i | 0 <= i < |s.calls| ensures Ascending(s.calls[i].keys, rank) {
        assert StartsWith(s, lists, i);
      }
      OwnThreadsAndCommonOrderNeverStick(cfg, thread, run, rank);
    }
  }

  /** Any number of calls on threads of their own, and a cache with room for their tiles: some contents of the cache let
      the calls block each other for good exactly when no ranking makes every claim list ascend. */
  lemma SomeCacheSticksAllIff<V(!new)>(cfg: Config<V>, thread: nat -> nat, lists: seq<seq<Key>>, pool: seq<Key>)
    requires AllDistinct(lists) && OwnThreads(thread, |lists|) && RoomFor(cfg, lists, pool)
    ensures SomeCacheSticksAll(cfg, thread, lists) <==> !exists rank: Key -> int :: Ranked(lists, rank)
  {
    if SomeCacheSticksAll(cfg, thread, lists) {
      var s :| Starting(cfg, s, lists) && CanStick(cfg, thread, s);
      forall rank: Key -> int ensures !Ranked(lists, rank) {
        StuckMeansUnranked(cfg, thread, s, lists, rank);
      }
    } else if !exists rank: Key -> int :: Ranked(lists, rank) {
      var s := UnrankedStart(cfg, thread, lists, pool);
    }
  }

  lemma UnrankedStart<V(!new)>(cfg: Config<V>, thread: nat -> nat, lists: seq<seq<Key>>, pool: seq<Key>)
      returns (s: System<V>)
    requires AllDistinct(lists) && OwnThreads(thread, |lists|) && RoomFor(cfg, lists, pool)
    requires !exists rank: Key -> int :: Ranked(lists, rank)
    ensures Starting(cfg, s, lists) && CanStick(cfg, thread, s)
  {
    var cold, plan := UnrankedHasRing(lists);
    var ready := Stock(cfg.source, pool, cold);
    s := StartAll(lists, ready);
    StockStarts(cfg, lists, pool, cold, ready);
    var run := RingSticks(cfg, thread, s, lists, plan);
    TurnRunIsThreaded(cfg, thread, run);
    assert StuckRun(cfg, thread, s, run);
  }
}
