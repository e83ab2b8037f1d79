/** Building runs: how one call can be led through its claims, to its fetch, or into a wait. */
module FetchClaims {
  import opened Wrappers
  import opened Arrays
  import opened TileStore
  import opened TileSource
  import opened FetchProtocol
  import opened FetchInvariant
  import opened FetchProgress
  import opened FetchThreads
  import Laws = TileStoreLaws

  /** Call i may take the next step on its thread. */
  ghost predicate Scheduled<V>(thread: nat -> nat, s: System<V>, i: nat) {
    i < |s.calls| && MayRun(thread, s, i) && InTurn(thread, s, i)
  }

  /** The same tiles are resident, in whatever order. */
  ghost predicate SameResident<V>(a: seq<Entry<V>>, b: seq<Entry<V>>) {
    forall k :: Has(a, k) <==> Has(b, k)
  }

  lemma ExtendRun<V>(cfg: Config<V>, thread: nat -> nat, run: seq<System<V>>, i: nat, fail: bool, t: System<V>)
    requires TurnRun(cfg, thread, run)
    requires StepOf(cfg, run[|run| - 1], i, fail, t) && Scheduled(thread, run[|run| - 1], i)
    ensures TurnRun(cfg, thread, run + [t])
  {
    var longer := run + [t];
    assert TurnStepOf(cfg, thread, run[|run| - 1], i, fail, t);
    forall n | 0 <= n < |longer| - 1 ensures TurnAt(cfg, thread, longer, n) {
      assert n < |run| - 1 ==> TurnAt(cfg, thread, run, n);
    }
  }

  lemma EndsInInv<V>(cfg: Config<V>, thread: nat -> nat, run: seq<System<V>>)
    requires TurnRun(cfg, thread, run)
    ensures Inv(cfg, run[|run| - 1])
  {
    TurnRunIsThreaded(cfg, thread, run);
    ThreadedRunIsRun(cfg, thread, run);
    RunKeepsInv(cfg, run, |run| - 1);
  }

  // ---- one claim ----------------------------------------------------------------------------

  /** What a claim of a key nobody holds leaves: a hit, or the key pending. */
  ghost predicate ClaimedOne<V>(t: System<V>, u: System<V>, i: nat, key: Key) {
    && i < |t.calls| && |u.calls| == |t.calls| && u.calls == t.calls[i := u.calls[i]]
    && u.calls[i].pc.Claiming? && u.calls[i].keys == t.calls[i].keys && |u.calls[i].out| == |t.calls[i].out| + 1
    && SameResident(u.store.ready, t.store.ready) && u.fired == t.fired
    && u.store.pending == if Has(t.store.ready, key) then t.store.pending else t.store.pending[key := t.store.nextSig]
  }

  lemma ClaimFree<V>(cfg: Config<V>, t: System<V>, i: nat, key: Key) returns (u: System<V>)
    requires Inv(cfg, t) && i < |t.calls| && t.calls[i].pc.Claiming? && |t.calls[i].out| < |t.calls[i].keys|
    requires key == t.calls[i].keys[|t.calls[i].out|] && key !in t.store.pending
    ensures StepOf(cfg, t, i, false, u) && ClaimedOne(t, u, i, key)
  {
    assert Shape(t.calls[i]);
    u := Next(cfg, t, i, false);
    Laws.TryClaimEffect(t.store, key);
  }

  /** A claim at the end of a run. */
  lemma ClaimAtEnd<V>(cfg: Config<V>, thread: nat -> nat, run: seq<System<V>>, t: System<V>, i: nat, key: Key)
      returns (u: System<V>)
    requires TurnRun(cfg, thread, run) && t == run[|run| - 1] && Scheduled(thread, t, i)
    requires t.calls[i].pc.Claiming? && |t.calls[i].out| < |t.calls[i].keys|
    requires key == t.calls[i].keys[|t.calls[i].out|] && key !in t.store.pending
    ensures TurnRun(cfg, thread, run + [u]) && ClaimedOne(t, u, i, key)
  {
    EndsInInv(cfg, thread, run);
    u := ClaimFree(cfg, t, i, key);
    ExtendRun(cfg, thread, run, i, false, u);
  }

  // ---- a stretch of claims ------------------------------------------------------------------

  /** `t` continues `s` by call i having claimed up to position `pos`: hits on resident keys, the others its own. */
  ghost predicate ClaimedUpTo<V>(s: System<V>, t: System<V>, i: nat, pos: nat) {
    && i < |s.calls| && |t.calls| == |s.calls| && t.calls == s.calls[i := t.calls[i]]
    && |s.calls[i].out| <= pos == |t.calls[i].out| <= |s.calls[i].keys|
    && t.calls[i].pc.Claiming? && t.calls[i].keys == s.calls[i].keys
    && SameResident(t.store.ready, s.store.ready) && t.fired == s.fired
    && (forall k :: k in t.store.pending <==>
          k in s.store.pending || (k in s.calls[i].keys[|s.calls[i].out|..pos] && !Has(s.store.ready, k)))
    && (forall k :: k in s.store.pending ==> t.store.pending[k] == s.store.pending[k])
  }

  ghost predicate CanClaimUpTo<V>(s: System<V>, i: nat, pos: nat) {
    && i < |s.calls| && s.calls[i].pc.Claiming? && |s.calls[i].out| <= pos <= |s.calls[i].keys|
    && forall k :: k in s.calls[i].keys[|s.calls[i].out|..pos] ==> k !in s.store.pending
  }

  lemma ClaimedOneMore<V>(s: System<V>, t: System<V>, u: System<V>, i: nat, pos: nat, key: Key)
    requires pos > 0 && ClaimedUpTo(s, t, i, pos - 1) && pos <= |s.calls[i].keys| && key == s.calls[i].keys[pos - 1]
    requires ClaimedOne(t, u, i, key) && key !in t.store.pending
    ensures ClaimedUpTo(s, u, i, pos)
  {
    var from, keys := |s.calls[i].out|, s.calls[i].keys;
    assert keys[from..pos] == keys[from..pos - 1] + [key];
  }

  lemma NextIsFree<V>(s: System<V>, t: System<V>, i: nat, pos: nat)
    requires pos > 0 && ClaimedUpTo(s, t, i, pos - 1) && CanClaimUpTo(s, i, pos) && DistinctKeys(s.calls[i].keys)
    ensures t.calls[i].keys[pos - 1] !in t.store.pending
  {
    var from, keys := |s.calls[i].out|, s.calls[i].keys;
    assert keys[from..pos] == keys[from..pos - 1] + [keys[pos - 1]];
    assert keys[pos - 1] in keys[from..pos] && keys[pos - 1] !in keys[from..pos - 1];
  }

  lemma ClaimedNothingYet<V>(s: System<V>, i: nat, pos: nat)
    requires i < |s.calls| && s.calls[i].pc.Claiming? && pos == |s.calls[i].out| <= |s.calls[i].keys|
    ensures ClaimedUpTo(s, s, i, pos)
  {
  }

  ghost predicate StillClaims<V>(s: System<V>, t: System<V>, i: nat) {
    && i < |s.calls| && |t.calls| == |s.calls| && t.calls == s.calls[i := t.calls[i]]
    && t.calls[i].pc.Claiming? && |s.calls[i].out| <= |t.calls[i].out|
  }

  lemma ClaimingKeepsSchedule<V>(thread: nat -> nat, s: System<V>, t: System<V>, i: nat)
    requires StillClaims(s, t, i) && Scheduled(thread, s, i) && s.calls[i].pc.Claiming?
    ensures Scheduled(thread, t, i)
  {
  }

  lemma NextKey<V>(s: System<V>, t: System<V>, i: nat, pos: nat) returns (key: Key)
    requires pos > 0 && ClaimedUpTo(s, t, i, pos - 1) && CanClaimUpTo(s, i, pos) && DistinctKeys(t.calls[i].keys)
    ensures StillClaims(s, t, i) && |t.calls[i].out| < |t.calls[i].keys| && s.calls[i].pc.Claiming?
    ensures key == s.calls[i].keys[pos - 1] == t.calls[i].keys[|t.calls[i].out|] && key !in t.store.pending
  {
    NextIsFree(s, t, i, pos);
    key := s.calls[i].keys[pos - 1];
  }

  lemma DistinctAtEnd<V>(cfg: Config<V>, thread: nat -> nat, run: seq<System<V>>, t: System<V>, i: nat)
    requires TurnRun(cfg, thread, run) && t == run[|run| - 1] && i < |t.calls|
    ensures DistinctKeys(t.calls[i].keys)
  {
    EndsInInv(cfg, thread, run);
    assert Shape(t.calls[i]);
  }

  /** One more claim at the end of a run. */
  lemma ClaimNext<V>(cfg: Config<V>, thread: nat -> nat, s: System<V>, run: seq<System<V>>, i: nat, pos: nat)
      returns (longer: seq<System<V>>)
    requires pos > 0 && TurnRun(cfg, thread, run)
    requires ClaimedUpTo(s, run[|run| - 1], i, pos - 1) && CanClaimUpTo(s, i, pos) && Scheduled(thread, s, i)
    ensures TurnRun(cfg, thread, longer) && longer[0] == run[0] && ClaimedUpTo(s, longer[|longer| - 1], i, pos)
  {
    var t := run[|run| - 1];
    DistinctAtEnd(cfg, thread, run, t, i);
    var key := NextKey(s, t, i, pos);
    ClaimingKeepsSchedule(thread, s, t, i);
    var u := ClaimAtEnd(cfg, thread, run, t, i, key);
    ClaimedOneMore(s, t, u, i, pos, key);
    longer := run + [u];
  }

  lemma {:induction false} ClaimFrom<V>(cfg: Config<V>, thread: nat -> nat, s: System<V>, run: seq<System<V>>,
                                        i: nat, pos: nat) returns (longer: seq<System<V>>)
    requires TurnRun(cfg, thread, run) && s == run[|run| - 1]
    requires CanClaimUpTo(s, i, pos) && Scheduled(thread, s, i)
    ensures TurnRun(cfg, thread, longer) && longer[0] == run[0] && ClaimedUpTo(s, longer[|longer| - 1], i, pos)
    decreases pos
  {
    if pos == |s.calls[i].out| {
      longer := run;
      ClaimedNothingYet(s, i, pos);
    } else {
      CanClaimLess(s, i, pos);
      var shorter := ClaimFrom(cfg, thread, s, run, i, pos - 1);
      longer := ClaimNext(cfg, thread, s, shorter, i, pos);
    }
  }

  lemma CanClaimLess<V>(s: System<V>, i: nat, pos: nat)
    requires CanClaimUpTo(s, i, pos) && pos != |s.calls[i].out|
    ensures pos > 0 && CanClaimUpTo(s, i, pos - 1)
  {
    var from, keys := |s.calls[i].out|, s.calls[i].keys;
    assert keys[from..pos] == keys[from..pos - 1] + [keys[pos - 1]];
  }

  /** Call i can claim a stretch of keys that nobody is fetching. */
  lemma ClaimStretch<V>(cfg: Config<V>, thread: nat -> nat, run: seq<System<V>>, i: nat, pos: nat)
      returns (longer: seq<System<V>>)
    requires TurnRun(cfg, thread, run)
    requires CanClaimUpTo(run[|run| - 1], i, pos) && Scheduled(thread, run[|run| - 1], i)
    ensures TurnRun(cfg, thread, longer) && longer[0] == run[0]
    ensures ClaimedUpTo(run[|run| - 1], longer[|longer| - 1], i, pos) && Scheduled(thread, longer[|longer| - 1], i)
  {
    longer := ClaimFrom(cfg, thread, run[|run| - 1], run, i, pos);
    ClaimingKeepsSchedule(thread, run[|run| - 1], longer[|longer| - 1], i);
  }

  // ---- into a wait, or to the fetch ---------------------------------------------------------

  ghost function WaitingOn<V>(s: System<V>, i: nat, sig: Sig): System<V>
    requires i < |s.calls|
  {
    s.(calls := s.calls[i := s.calls[i].(pc := Waiting(sig))])
  }

  /** What the invariant says of a call about to wait for a pending key. */
  lemma PendingUnfired<V>(cfg: Config<V>, s: System<V>, i: nat, key: Key)
    requires Inv(cfg, s) && i < |s.calls| && key in s.store.pending
    ensures Shape(s.calls[i]) && !Has(s.store.ready, key) && s.store.pending[key] !in s.fired
  {
  }

  lemma WaitStep<V>(cfg: Config<V>, s: System<V>, i: nat, key: Key)
    requires i < |s.calls| && s.calls[i].pc.Claiming? && |s.calls[i].out| < |s.calls[i].keys|
    requires key == s.calls[i].keys[|s.calls[i].out|] && key in s.store.pending
    requires Shape(s.calls[i]) && !Has(s.store.ready, key) && s.store.pending[key] !in s.fired
    ensures StepOf(cfg, s, i, false, WaitingOn(s, i, s.store.pending[key]))
    ensures !Enabled(WaitingOn(s, i, s.store.pending[key]), i)
  {
  }

  /** A claiming call whose next key is pending goes to wait for it, and its signal is not fired. */
  lemma GoWait<V>(cfg: Config<V>, thread: nat -> nat, run: seq<System<V>>, i: nat, key: Key)
      returns (longer: seq<System<V>>)
    requires TurnRun(cfg, thread, run) && Scheduled(thread, run[|run| - 1], i)
    requires var c := run[|run| - 1].calls[i];
             c.pc.Claiming? && |c.out| < |c.keys| && key == c.keys[|c.out|] && key in run[|run| - 1].store.pending
    ensures TurnRun(cfg, thread, longer) && longer[0] == run[0]
    ensures longer[|longer| - 1] == WaitingOn(run[|run| - 1], i, run[|run| - 1].store.pending[key])
    ensures !Enabled(longer[|longer| - 1], i)
  {
    var s := run[|run| - 1];
    var t := WaitingOn(s, i, s.store.pending[key]);
    longer := run + [t];
    EndsInInv(cfg, thread, run);
    PendingUnfired(cfg, s, i, key);
    WaitStep(cfg, s, i, key);
    ExtendRun(cfg, thread, run, i, false, t);
  }

  lemma FetchStep<V>(cfg: Config<V>, s: System<V>, i: nat)
    requires Inv(cfg, s) && i < |s.calls| && s.calls[i].pc.Claiming? && |s.calls[i].out| == |s.calls[i].keys|
    requires s.calls[i].misses != []
    ensures StepOf(cfg, s, i, false, Move(s, i, Fetching))
  {
    assert Shape(s.calls[i]);
  }

  /** A call that has claimed all its keys and was granted one of them goes to its fetch. */
  lemma GoFetch<V>(cfg: Config<V>, thread: nat -> nat, run: seq<System<V>>, i: nat) returns (longer: seq<System<V>>)
    requires TurnRun(cfg, thread, run) && Scheduled(thread, run[|run| - 1], i)
    requires var c := run[|run| - 1].calls[i]; c.pc.Claiming? && |c.out| == |c.keys| && c.misses != []
    ensures TurnRun(cfg, thread, longer) && longer[0] == run[0]
    ensures longer[|longer| - 1] == Move(run[|run| - 1], i, Fetching)
  {
    var s := run[|run| - 1];
    longer := run + [Move(s, i, Fetching)];
    EndsInInv(cfg, thread, run);
    FetchStep(cfg, s, i);
    ExtendRun(cfg, thread, run, i, false, Move(s, i, Fetching));
  }
}
