/** What every interleaving of fetch_decoded calls keeps. */
module FetchInvariant {
  import opened Wrappers
  import opened Arrays
  import opened TileStore
  import opened TileSource
  import opened FetchProtocol
  import Laws = TileStoreLaws

  ghost predicate Shapes<V>(calls: seq<Call<V>>) {
    forall i :: 0 <= i < |calls| ==> Shape(calls[i])
  }

  ghost function OwedBy<V>(calls: seq<Call<V>>): (r: seq<set<Key>>)
    requires Shapes(calls)
  {
    seq(|calls|, i requires 0 <= i < |calls| => Owed(calls[i]))
  }

  /** Single flight: the pending keys are exactly the keys owed, each owed by one call. */
  ghost predicate Owners(owed: seq<set<Key>>, pending: set<Key>) {
    && (forall i :: 0 <= i < |owed| ==> owed[i] <= pending)
    && (forall i, j :: 0 <= i < j < |owed| ==> owed[i] !! owed[j])
    && (forall k :: k in pending ==> OwedBySome(owed, k))
  }

  ghost predicate OwedBySome(owed: seq<set<Key>>, k: Key) {
    exists i :: 0 <= i < |owed| && k in owed[i]
  }

  /** A signal is with its pending slot, then in the hands of one resolver, then fired. */
  ghost predicate Signals<V>(calls: seq<Call<V>>, pending: map<Key, Sig>, nextSig: Sig, fired: set<Sig>) {
    && (forall k :: k in pending ==> pending[k] !in fired)
    && (forall sig :: sig in fired ==> sig < nextSig)
    && (forall i :: 0 <= i < |calls| && calls[i].pc.Firing? ==>
          && calls[i].pc.sig < nextSig && calls[i].pc.sig !in fired
          && forall k :: k in pending ==> pending[k] != calls[i].pc.sig)
    && (forall i, j :: 0 <= i < j < |calls| && calls[i].pc.Firing? && calls[j].pc.Firing? ==>
          calls[i].pc.sig != calls[j].pc.sig)
  }

  ghost predicate InHands<V>(calls: seq<Call<V>>, sig: Sig) {
    exists j :: 0 <= j < |calls| && calls[j].pc.Firing? && calls[j].pc.sig == sig
  }

  /** No lost wake-up: what a waiter waits for is still pending under its key, about to be fired, or fired. */
  ghost predicate Wakeable<V>(calls: seq<Call<V>>, pending: map<Key, Sig>, fired: set<Sig>)
    requires Shapes(calls)
  {
    forall i :: 0 <= i < |calls| && calls[i].pc.Waiting? ==>
      WillWake(calls, pending, fired, calls[i].keys[|calls[i].out|], calls[i].pc.sig)
  }

  ghost predicate WillWake<V>(calls: seq<Call<V>>, pending: map<Key, Sig>, fired: set<Sig>, key: Key, sig: Sig) {
    sig in fired || (key in pending && pending[key] == sig) || InHands(calls, sig)
  }

  /** Every tile held anywhere is the source's own tile of its key. */
  ghost predicate Truthful<V>(source: Source<V>, ready: seq<Entry<V>>, calls: seq<Call<V>>)
    requires Shapes(calls)
  {
    && (forall e | e in ready :: source(e.key) == Tile(e.arr))
    && (forall i :: 0 <= i < |calls| ==> Filled(source, calls[i]))
  }

  ghost predicate Filled<V>(source: Source<V>, c: Call<V>)
    requires Shape(c)
  {
    forall j :: 0 <= j < |c.out| && c.out[j].Some? ==> source(c.keys[j]) == Tile(c.out[j].value)
  }

  /** A call fails only over a tile of its own that the source cannot give, unless the source is flaky. */
  ghost predicate Blames<V>(cfg: Config<V>, calls: seq<Call<V>>)
    requires Shapes(calls)
  {
    !cfg.flaky ==> forall i :: 0 <= i < |calls| && Failing(calls[i].pc) ==> SomeMissFails(cfg.source, calls[i])
  }

  ghost predicate Inv<V>(cfg: Config<V>, s: System<V>) {
    && Shapes(s.calls)
    && Valid(s.store)
    && Bytes(s.store.ready) <= cfg.maxBytes
    && Laws.Unaccounted(s.store) == s.aborted
    && Owners(OwedBy(s.calls), s.store.pending.Keys)
    && Signals(s.calls, s.store.pending, s.store.nextSig, s.fired)
    && Wakeable(s.calls, s.store.pending, s.fired)
    && Truthful(cfg.source, s.store.ready, s.calls)
    && Blames(cfg, s.calls)
  }

  // ---- one call's own step ------------------------------------------------------------------

  lemma ShapeAfterGrant<V>(c: Call<V>, d: Call<V>)
    requires Shape(c) && c.pc.Claiming? && |c.out| < |c.keys|
    requires d == c.(out := c.out + [None], misses := c.misses + [|c.out|])
    ensures Shape(d)
  {
    assert d.misses[d.settled..] == d.misses && c.misses[c.settled..] == c.misses;
    forall j | 0 <= j < |d.out| && d.out[j].None? ensures j in d.misses {
      assert j == |c.out| ==> d.misses[|c.misses|] == j;
    }
  }

  lemma OwedAfterGrant<V>(c: Call<V>, d: Call<V>)
    requires Shape(c) && Shape(d) && c.settled == 0 && |c.out| < |c.keys|
    requires d.keys == c.keys && d.settled == 0 && d.misses == c.misses + [|c.out|]
    ensures Owed(d) == Owed(c) + {c.keys[|c.out|]}
  {
    forall k | k in Owed(c) ensures k in Owed(d) {
      var m :| c.settled <= m < |c.misses| && k == c.keys[c.misses[m]];
      assert d.keys[d.misses[m]] == k;
    }
    assert d.keys[d.misses[|c.misses|]] == c.keys[|c.out|];
  }

  lemma CallAfterBusy<V>(source: Source<V>, c: Call<V>, sig: Sig)
    requires Shape(c) && c.pc.Claiming? && |c.out| < |c.keys| && Filled(source, c)
    ensures var d := AfterClaim<V>(c, Busy(sig)); Shape(d) && Owed(d) == Owed(c) && Filled(source, d)
  {
  }

  lemma CallAfterHit<V>(source: Source<V>, c: Call<V>, arr: Array<V>)
    requires Shape(c) && c.pc.Claiming? && |c.out| < |c.keys| && Filled(source, c)
    requires source(c.keys[|c.out|]) == Tile(arr)
    ensures var d := AfterClaim(c, Hit(arr)); Shape(d) && Owed(d) == Owed(c) && Filled(source, d)
  {
    var d := AfterClaim(c, Hit(arr));
    assert d.misses[d.settled..] == c.misses[c.settled..];
    assert Shape(d);
  }

  lemma CallAfterPublish<V>(source: Source<V>, c: Call<V>, d: Call<V>)
    requires Shape(c) && c.pc.Fulfilling? && c.settled < |c.misses| && Filled(source, c) && source(CurrentKey(c)).Tile?
    requires d == c.(out := c.out[c.misses[c.settled] := Some(source(CurrentKey(c)).arr)], settled := c.settled + 1,
                     pc := d.pc)
    requires d.pc.Fulfilling? || (d.pc.Firing? && !d.pc.failing)
    ensures Shape(d) && Filled(source, d)
  {
    forall j: nat | j < |d.out| && d.out[j].None? ensures j in d.misses[d.settled..] {
      StillMissing(c.misses, c.settled, j);
    }
    FilledByPublish(source, c, d);
  }

  lemma StillMissing(misses: seq<nat>, m: nat, j: nat)
    requires m < |misses| && j in misses[m..] && j != misses[m]
    ensures j in misses[m + 1..]
  {
    assert misses[m..] == [misses[m]] + misses[m + 1..];
  }

  lemma FilledByPublish<V>(source: Source<V>, c: Call<V>, d: Call<V>)
    requires Shape(c) && Shape(d) && c.settled < |c.misses| && Filled(source, c) && source(CurrentKey(c)).Tile?
    requires d.keys == c.keys && d.out == c.out[c.misses[c.settled] := Some(source(CurrentKey(c)).arr)]
    ensures Filled(source, d)
  {
  }

  lemma OwedAfterSettle<V>(c: Call<V>, d: Call<V>)
    requires Shape(c) && c.settled < |c.misses|
    requires d.keys == c.keys && d.misses == c.misses && d.settled == c.settled + 1 && Shape(d)
    ensures Owed(d) == Owed(c) - {CurrentKey(c)} && CurrentKey(c) in Owed(c)
  {
    forall k ensures k in Owed(d) <==> k in Owed(c) && k != CurrentKey(c) {
      if k in Owed(c) && k != CurrentKey(c) {
        var m :| c.settled <= m < |c.misses| && k == c.keys[c.misses[m]];
        assert m != c.settled;
        assert d.keys[d.misses[m]] == k;
      }
      if k in Owed(d) {
        var m :| d.settled <= m < |d.misses| && k == d.keys[d.misses[m]];
        assert c.misses[c.settled] < c.misses[m];
      }
    }
  }

  // ---- ownership ----------------------------------------------------------------------------

  lemma OwnersGrant(owed: seq<set<Key>>, i: nat, pending: set<Key>, k: Key)
    requires i < |owed| && Owners(owed, pending) && k !in pending
    ensures Owners(owed[i := owed[i] + {k}], pending + {k})
  {
    var after := owed[i := owed[i] + {k}];
    assert k in after[i];
    forall l | l in pending ensures OwedBySome(after, l) {
      assert OwedBySome(owed, l);
      var j :| 0 <= j < |owed| && l in owed[j];
      assert l in after[j];
    }
  }

  lemma OwnersSettle(owed: seq<set<Key>>, i: nat, pending: set<Key>, k: Key)
    requires i < |owed| && Owners(owed, pending) && k in owed[i]
    ensures Owners(owed[i := owed[i] - {k}], pending - {k})
  {
    var after := owed[i := owed[i] - {k}];
    forall j | 0 <= j < |after| && j != i ensures k !in owed[j] {
      assert j < i ==> owed[j] !! owed[i];
      assert j > i ==> owed[i] !! owed[j];
    }
    forall l | l in pending - {k} ensures OwedBySome(after, l) {
      assert OwedBySome(owed, l);
      var j :| 0 <= j < |owed| && l in owed[j];
      assert l in after[j];
    }
  }

  lemma OwedByUpdate<V>(calls: seq<Call<V>>, i: nat, d: Call<V>)
    requires Shapes(calls) && i < |calls| && Shape(d)
    ensures Shapes(calls[i := d]) && OwedBy(calls[i := d]) == OwedBy(calls)[i := Owed(d)]
  {
  }

  lemma GrantKeepsOwners<V>(calls: seq<Call<V>>, i: nat, d: Call<V>, pending: map<Key, Sig>, k: Key, sig: Sig)
    requires Shapes(calls) && i < |calls| && Shape(d) && k !in pending && Owed(d) == Owed(calls[i]) + {k}
    requires Owners(OwedBy(calls), pending.Keys)
    ensures Shapes(calls[i := d]) && Owners(OwedBy(calls[i := d]), pending[k := sig].Keys)
  {
    OwedByUpdate(calls, i, d);
    OwnersGrant(OwedBy(calls), i, pending.Keys, k);
    assert pending[k := sig].Keys == pending.Keys + {k};
  }

  lemma SettleKeepsOwners<V>(calls: seq<Call<V>>, i: nat, d: Call<V>, pending: map<Key, Sig>, k: Key)
    requires Shapes(calls) && i < |calls| && Shape(d) && k in Owed(calls[i]) && Owed(d) == Owed(calls[i]) - {k}
    requires Owners(OwedBy(calls), pending.Keys)
    ensures Shapes(calls[i := d]) && Owners(OwedBy(calls[i := d]), (pending - {k}).Keys)
    ensures k in pending
  {
    OwedByUpdate(calls, i, d);
    OwnersSettle(OwedBy(calls), i, pending.Keys, k);
    assert OwedBy(calls)[i] == Owed(calls[i]);
    assert (pending - {k}).Keys == pending.Keys - {k};
  }

  // ---- signals ------------------------------------------------------------------------------

  lemma SignalsQuiet<V>(calls: seq<Call<V>>, i: nat, d: Call<V>, pending: map<Key, Sig>, nextSig: Sig, fired: set<Sig>)
    requires Signals(calls, pending, nextSig, fired) && i < |calls| && !d.pc.Firing?
    ensures Signals(calls[i := d], pending, nextSig, fired)
  {
  }

  lemma SignalsGrant<V>(calls: seq<Call<V>>, i: nat, d: Call<V>, pending: map<Key, Sig>, nextSig: Sig,
                        fired: set<Sig>, k: Key)
    requires Signals(calls, pending, nextSig, fired) && i < |calls| && !d.pc.Firing?
    ensures Signals(calls[i := d], pending[k := nextSig], nextSig + 1, fired)
  {
  }

  lemma SignalsTake<V>(calls: seq<Call<V>>, i: nat, d: Call<V>, s: Store<V>, fired: set<Sig>, k: Key)
    requires Valid(s) && Signals(calls, s.pending, s.nextSig, fired) && i < |calls|
    requires k in s.pending && d.pc.Firing? && d.pc.sig == s.pending[k]
    ensures Signals(calls[i := d], s.pending - {k}, s.nextSig, fired)
  {
    forall l | l in s.pending - {k} ensures s.pending[l] != s.pending[k] {
    }
  }

  lemma SignalsFire<V>(calls: seq<Call<V>>, i: nat, d: Call<V>, pending: map<Key, Sig>, nextSig: Sig, fired: set<Sig>)
    requires Signals(calls, pending, nextSig, fired) && i < |calls| && calls[i].pc.Firing? && !d.pc.Firing?
    ensures Signals(calls[i := d], pending, nextSig, fired + {calls[i].pc.sig})
  {
  }

  // ---- wake-ups -----------------------------------------------------------------------------

  /** Waiters keep their wake-up when a slot leaves the map only into the hands of call i, and a
      signal leaves the hands of call i only by being fired. */
  lemma WakeableKept<V>(calls: seq<Call<V>>, i: nat, d: Call<V>, pending: map<Key, Sig>, pending': map<Key, Sig>,
                        fired: set<Sig>, fired': set<Sig>)
    requires Shapes(calls) && i < |calls| && Shape(d) && Wakeable(calls, pending, fired)
    requires fired <= fired'
    requires forall k :: k in pending ==>
              (k in pending' && pending'[k] == pending[k]) || (d.pc.Firing? && d.pc.sig == pending[k])
    requires calls[i].pc.Firing? ==> calls[i].pc.sig in fired'
    requires d.pc.Waiting? ==> d.keys[|d.out|] in pending' && pending'[d.keys[|d.out|]] == d.pc.sig
    ensures Shapes(calls[i := d]) && Wakeable(calls[i := d], pending', fired')
  {
    var after := calls[i := d];
    forall j | 0 <= j < |after| && after[j].pc.Waiting?
      ensures WillWake(after, pending', fired', after[j].keys[|after[j].out|], after[j].pc.sig)
    {
      if j != i {
        WillWakeKept(calls, i, d, pending, pending', fired, fired', after[j].keys[|after[j].out|], after[j].pc.sig);
      }
    }
  }

  lemma WillWakeKept<V>(calls: seq<Call<V>>, i: nat, d: Call<V>, pending: map<Key, Sig>, pending': map<Key, Sig>,
                        fired: set<Sig>, fired': set<Sig>, key: Key, sig: Sig)
    requires i < |calls| && fired <= fired' && WillWake(calls, pending, fired, key, sig)
    requires key in pending ==>
              (key in pending' && pending'[key] == pending[key]) || (d.pc.Firing? && d.pc.sig == pending[key])
    requires calls[i].pc.Firing? ==> calls[i].pc.sig in fired'
    ensures WillWake(calls[i := d], pending', fired', key, sig)
  {
    var after := calls[i := d];
    if InHands(calls, sig) {
      var j :| 0 <= j < |calls| && calls[j].pc.Firing? && calls[j].pc.sig == sig;
      assert j != i ==> after[j].pc.Firing? && after[j].pc.sig == sig;
    } else if key in pending && pending[key] == sig {
      assert after[i] == d;
    }
  }

  // ---- truth and blame ----------------------------------------------------------------------

  lemma TruthAndBlameKept<V>(cfg: Config<V>, ready: seq<Entry<V>>, ready': seq<Entry<V>>, calls: seq<Call<V>>, i: nat,
                             d: Call<V>)
    requires Shapes(calls) && i < |calls| && Shape(d)
    requires Truthful(cfg.source, ready, calls) && Blames(cfg, calls)
    requires forall e | e in ready' :: e in ready || cfg.source(e.key) == Tile(e.arr)
    requires Filled(cfg.source, d)
    requires !cfg.flaky && Failing(d.pc) ==> SomeMissFails(cfg.source, d)
    ensures Shapes(calls[i := d]) && Truthful(cfg.source, ready', calls[i := d]) && Blames(cfg, calls[i := d])
  {
  }

  // ---- the steps ----------------------------------------------------------------------------

  /** A step that touches nothing but its own call, and hands no signal over. */
  lemma QuietStepKeeps<V>(cfg: Config<V>, s: System<V>, i: nat, d: Call<V>)
    requires Inv(cfg, s) && i < |s.calls| && Shape(d) && Owed(d) == Owed(s.calls[i])
    requires !d.pc.Firing? && !s.calls[i].pc.Firing?
    requires d.pc.Waiting? ==> d.keys[|d.out|] in s.store.pending && s.store.pending[d.keys[|d.out|]] == d.pc.sig
    requires Filled(cfg.source, d)
    requires !cfg.flaky && Failing(d.pc) ==> SomeMissFails(cfg.source, d)
    ensures Inv(cfg, s.(calls := s.calls[i := d]))
  {
    OwedByUpdate(s.calls, i, d);
    assert OwedBy(s.calls)[i := Owed(d)] == OwedBy(s.calls);
    SignalsQuiet(s.calls, i, d, s.store.pending, s.store.nextSig, s.fired);
    WakeableKept(s.calls, i, d, s.store.pending, s.store.pending, s.fired, s.fired);
    TruthAndBlameKept(cfg, s.store.ready, s.store.ready, s.calls, i, d);
  }

  lemma HitStepKeeps<V>(cfg: Config<V>, s: System<V>, i: nat, store: Store<V>, arr: Array<V>)
    requires Inv(cfg, s) && i < |s.calls| && s.calls[i].pc.Claiming? && |s.calls[i].out| < |s.calls[i].keys|
    requires TryClaim(s.store, s.calls[i].keys[|s.calls[i].out|]) == (store, Hit(arr))
    ensures Inv(cfg, s.(store := store, calls := s.calls[i := AfterClaim(s.calls[i], Hit(arr))]))
  {
    var c := s.calls[i];
    var key := c.keys[|c.out|];
    Laws.TryClaimEffect(s.store, key);
    assert Entry(key, arr) in s.store.ready;
    CallAfterHit(cfg.source, c, arr);
    QuietStepKeeps(cfg, s.(store := store), i, AfterClaim(c, Hit(arr)));
  }

  /** Granting a key nobody holds: it becomes pending under a new signal, owed by call i. */
  lemma GrantStepKeeps<V>(cfg: Config<V>, s: System<V>, i: nat, store: Store<V>, key: Key, d: Call<V>)
    requires Inv(cfg, s) && i < |s.calls| && Shape(d) && InClaimPhase(d.pc) && !d.pc.Waiting? && !s.calls[i].pc.Firing?
    requires key !in s.store.pending && Owed(d) == Owed(s.calls[i]) + {key} && Filled(cfg.source, d)
    requires Valid(store) && store.ready == s.store.ready && Laws.Unaccounted(store) == s.aborted
    requires store.pending == s.store.pending[key := s.store.nextSig] && store.nextSig == s.store.nextSig + 1
    ensures Inv(cfg, System(store, s.fired, s.aborted, s.calls[i := d]))
  {
    GrantKeepsOwners(s.calls, i, d, s.store.pending, key, s.store.nextSig);
    SignalsGrant(s.calls, i, d, s.store.pending, s.store.nextSig, s.fired, key);
    WakeableKept(s.calls, i, d, s.store.pending, store.pending, s.fired, s.fired);
    TruthAndBlameKept(cfg, s.store.ready, store.ready, s.calls, i, d);
  }

  lemma MineStepKeeps<V>(cfg: Config<V>, s: System<V>, i: nat, store: Store<V>)
    requires Inv(cfg, s) && i < |s.calls| && s.calls[i].pc.Claiming? && |s.calls[i].out| < |s.calls[i].keys|
    requires TryClaim(s.store, s.calls[i].keys[|s.calls[i].out|]) == (store, Mine)
    ensures Inv(cfg, s.(store := store, calls := s.calls[i := AfterClaim(s.calls[i], Mine)]))
  {
    var c := s.calls[i];
    var key := c.keys[|c.out|];
    var d := AfterClaim<V>(c, Mine);
    Laws.TryClaimEffect(s.store, key);
    ShapeAfterGrant(c, d);
    OwedAfterGrant(c, d);
    GrantStepKeeps(cfg, s, i, store, key, d);
  }

  lemma BusyStepKeeps<V>(cfg: Config<V>, s: System<V>, i: nat, store: Store<V>, sig: Sig)
    requires Inv(cfg, s) && i < |s.calls| && s.calls[i].pc.Claiming? && |s.calls[i].out| < |s.calls[i].keys|
    requires TryClaim(s.store, s.calls[i].keys[|s.calls[i].out|]) == (store, Busy(sig))
    ensures Inv(cfg, s.(store := store, calls := s.calls[i := AfterClaim(s.calls[i], Busy(sig))]))
  {
    var c := s.calls[i];
    Laws.TryClaimEffect(s.store, c.keys[|c.out|]);
    CallAfterBusy(cfg.source, c, sig);
    QuietStepKeeps(cfg, s, i, AfterClaim(c, Busy(sig)));
  }

  /** Settling the current key, by publishing or by giving back: the signal passes to call i. */
  lemma SettleStepKeeps<V>(cfg: Config<V>, s: System<V>, i: nat, store: Store<V>, aborted: nat, d: Call<V>)
    requires Inv(cfg, s) && i < |s.calls| && !s.calls[i].pc.Firing? && s.calls[i].settled < |s.calls[i].misses|
    requires d.keys == s.calls[i].keys && d.misses == s.calls[i].misses && d.settled == s.calls[i].settled + 1
    requires Shape(d)
    requires CurrentKey(s.calls[i]) in s.store.pending ==>
              d.pc.Firing? && d.pc.sig == s.store.pending[CurrentKey(s.calls[i])]
    requires Valid(store) && store.pending == s.store.pending - {CurrentKey(s.calls[i])}
    requires store.nextSig == s.store.nextSig
    requires Bytes(store.ready) <= cfg.maxBytes && Laws.Unaccounted(store) == aborted
    requires forall e | e in store.ready :: e in s.store.ready || cfg.source(e.key) == Tile(e.arr)
    requires Filled(cfg.source, d)
    requires !cfg.flaky && Failing(d.pc) ==> SomeMissFails(cfg.source, d)
    ensures Inv(cfg, System(store, s.fired, aborted, s.calls[i := d]))
  {
    var c := s.calls[i];
    var key := CurrentKey(c);
    OwedAfterSettle(c, d);
    SettleKeepsOwners(s.calls, i, d, s.store.pending, key);
    SignalsTake(s.calls, i, d, s.store, s.fired, key);
    WakeableKept(s.calls, i, d, s.store.pending, store.pending, s.fired, s.fired);
    TruthAndBlameKept(cfg, s.store.ready, store.ready, s.calls, i, d);
  }

  /** The current key of a call is pending: it is owed. */
  lemma CurrentIsPending<V>(cfg: Config<V>, s: System<V>, i: nat)
    requires Inv(cfg, s) && i < |s.calls| && s.calls[i].settled < |s.calls[i].misses|
    ensures CurrentKey(s.calls[i]) in s.store.pending
  {
    var c := s.calls[i];
    assert c.keys[c.misses[c.settled]] in Owed(c);
    assert OwedBy(s.calls)[i] == Owed(c);
  }

  lemma PublishStepKeeps<V>(cfg: Config<V>, s: System<V>, i: nat, store: Store<V>, sig: Option<Sig>, arr: Array<V>,
                            d: Call<V>)
    requires Inv(cfg, s) && i < |s.calls| && s.calls[i].pc.Fulfilling? && s.calls[i].settled < |s.calls[i].misses|
    requires cfg.source(CurrentKey(s.calls[i])) == Tile(arr)
    requires Publish(s.store, cfg.maxBytes, CurrentKey(s.calls[i]), arr) == (store, sig)
    requires d == s.calls[i].(out := s.calls[i].out[s.calls[i].misses[s.calls[i].settled] := Some(arr)],
                              settled := s.calls[i].settled + 1,
                              pc := if sig.Some? then Firing(sig.value, false) else Fulfilling)
    ensures Inv(cfg, System(store, s.fired, s.aborted, s.calls[i := d]))
  {
    Laws.PublishKeeps(s.store, cfg.maxBytes, CurrentKey(s.calls[i]), arr);
    CurrentIsPending(cfg, s, i);
    CallAfterPublish(cfg.source, s.calls[i], d);
    SettleStepKeeps(cfg, s, i, store, s.aborted, d);
  }

  lemma CallAfterAbort<V>(source: Source<V>, c: Call<V>, d: Call<V>)
    requires Shape(c) && c.pc.Aborting? && c.settled < |c.misses| && Filled(source, c)
    requires d == c.(settled := c.settled + 1, pc := d.pc) && (d.pc.Aborting? || (d.pc.Firing? && d.pc.failing))
    ensures Shape(d) && Filled(source, d) && (SomeMissFails(source, c) ==> SomeMissFails(source, d))
  {
  }

  lemma AbortStepKeeps<V>(cfg: Config<V>, s: System<V>, i: nat, store: Store<V>, sig: Option<Sig>, d: Call<V>)
    requires Inv(cfg, s) && i < |s.calls| && s.calls[i].pc.Aborting? && s.calls[i].settled < |s.calls[i].misses|
    requires Release(s.store, CurrentKey(s.calls[i])) == (store, sig)
    requires d == s.calls[i].(settled := s.calls[i].settled + 1,
                              pc := if sig.Some? then Firing(sig.value, true) else Aborting)
    ensures Inv(cfg, System(store, s.fired, s.aborted + (if sig.Some? then 1 else 0), s.calls[i := d]))
  {
    Laws.ReleaseEffect(s.store, CurrentKey(s.calls[i]));
    CurrentIsPending(cfg, s, i);
    CallAfterAbort(cfg.source, s.calls[i], d);
    SettleStepKeeps(cfg, s, i, store, s.aborted + 1, d);
  }

  lemma SameMissesFail<V>(source: Source<V>, c: Call<V>, d: Call<V>)
    requires Shape(c) && Shape(d) && d.keys == c.keys && d.misses == c.misses
    ensures SomeMissFails(source, c) ==> SomeMissFails(source, d)
  {
  }

  lemma FireStepKeeps<V>(cfg: Config<V>, s: System<V>, i: nat)
    requires Inv(cfg, s) && i < |s.calls| && s.calls[i].pc.Firing?
    ensures Inv(cfg, Next(cfg, s, i, false))
  {
    var c := s.calls[i];
    var t := Next(cfg, s, i, false);
    var d := t.calls[i];
    OwedByUpdate(s.calls, i, d);
    assert Owed(d) == Owed(c);
    assert OwedBy(s.calls)[i := Owed(d)] == OwedBy(s.calls);
    SignalsFire(s.calls, i, d, s.store.pending, s.store.nextSig, s.fired);
    WakeableKept(s.calls, i, d, s.store.pending, s.store.pending, s.fired, t.fired);
    SameMissesFail(cfg.source, c, d);
    TruthAndBlameKept(cfg, s.store.ready, s.store.ready, s.calls, i, d);
  }

  /** Starting to fail is blamed on a tile the source cannot give. */
  lemma FailureHasCause<V>(cfg: Config<V>, c: Call<V>)
    requires Shape(c) && (c.pc.Fetching? || c.pc.Fulfilling?) && MayGo(cfg, c, true)
    ensures cfg.flaky || SomeMissFails(cfg.source, c)
  {
    if c.pc.Fetching? && SomeMissFailsFetch(cfg.source, c) {
      var m :| 0 <= m < |c.misses| && cfg.source(c.keys[c.misses[m]]).FetchFails?;
      assert !cfg.source(c.keys[c.misses[m]]).Tile?;
    }
  }

  lemma MoveStepKeeps<V>(cfg: Config<V>, s: System<V>, i: nat, pc: Pc)
    requires Inv(cfg, s) && i < |s.calls| && !s.calls[i].pc.Firing?
    requires Shape(s.calls[i].(pc := pc)) && !pc.Firing? && !pc.Waiting?
    requires !cfg.flaky && Failing(pc) ==> SomeMissFails(cfg.source, s.calls[i])
    ensures Inv(cfg, Move(s, i, pc))
  {
    var c, d := s.calls[i], s.calls[i].(pc := pc);
    assert Owed(d) == Owed(c);
    SameMissesFail(cfg.source, c, d);
    QuietStepKeeps(cfg, s, i, d);
  }

  lemma ClaimingKeeps<V>(cfg: Config<V>, s: System<V>, i: nat, fail: bool, t: System<V>)
    requires Inv(cfg, s) && StepOf(cfg, s, i, fail, t) && s.calls[i].pc.Claiming?
    ensures Inv(cfg, t)
  {
    var c := s.calls[i];
    if |c.out| < |c.keys| {
      var (store, outcome) := TryClaim(s.store, c.keys[|c.out|]);
      match outcome
      case Busy(sig) => BusyStepKeeps(cfg, s, i, store, sig);
      case Hit(arr) => HitStepKeeps(cfg, s, i, store, arr);
      case Mine => MineStepKeeps(cfg, s, i, store);
    } else {
      MoveStepKeeps(cfg, s, i, if c.misses == [] then Returned else Fetching);
    }
  }

  lemma FetchingKeeps<V>(cfg: Config<V>, s: System<V>, i: nat, fail: bool, t: System<V>)
    requires Inv(cfg, s) && StepOf(cfg, s, i, fail, t) && s.calls[i].pc.Fetching?
    ensures Inv(cfg, t)
  {
    if fail {
      FailureHasCause(cfg, s.calls[i]);
    }
    MoveStepKeeps(cfg, s, i, if fail then Aborting else Fulfilling);
  }

  lemma FulfillingKeeps<V>(cfg: Config<V>, s: System<V>, i: nat, fail: bool, t: System<V>)
    requires Inv(cfg, s) && StepOf(cfg, s, i, fail, t) && s.calls[i].pc.Fulfilling?
    ensures Inv(cfg, t)
  {
    var c := s.calls[i];
    if c.settled == |c.misses| {
      MoveStepKeeps(cfg, s, i, Returned);
    } else if fail {
      FailureHasCause(cfg, c);
      MoveStepKeeps(cfg, s, i, Aborting);
    } else {
      var arr := cfg.source(CurrentKey(c)).arr;
      var (store, sig) := Publish(s.store, cfg.maxBytes, CurrentKey(c), arr);
      PublishStepKeeps(cfg, s, i, store, sig, arr, t.calls[i]);
    }
  }

  lemma AbortingKeeps<V>(cfg: Config<V>, s: System<V>, i: nat, fail: bool, t: System<V>)
    requires Inv(cfg, s) && StepOf(cfg, s, i, fail, t) && s.calls[i].pc.Aborting?
    ensures Inv(cfg, t)
  {
    var c := s.calls[i];
    if c.settled == |c.misses| {
      MoveStepKeeps(cfg, s, i, Failed);
    } else {
      var (store, sig) := Release(s.store, CurrentKey(c));
      AbortStepKeeps(cfg, s, i, store, sig, t.calls[i]);
    }
  }

  /** Every step of every call keeps the invariant. */
  lemma StepKeepsInv<V>(cfg: Config<V>, s: System<V>, i: nat, fail: bool, t: System<V>)
    requires Inv(cfg, s) && StepOf(cfg, s, i, fail, t)
    ensures Inv(cfg, t)
  {
    match s.calls[i].pc
    case Claiming => ClaimingKeeps(cfg, s, i, fail, t);
    case Waiting(_) => MoveStepKeeps(cfg, s, i, Claiming);
    case Fetching => FetchingKeeps(cfg, s, i, fail, t);
    case Fulfilling => FulfillingKeeps(cfg, s, i, fail, t);
    case Aborting => AbortingKeeps(cfg, s, i, fail, t);
    case Firing(_, _) => FireStepKeeps(cfg, s, i);
  }

  lemma InitHasInv<V>(cfg: Config<V>, s: System<V>)
    requires Init(cfg, s)
    ensures Inv(cfg, s)
  {
    forall i | 0 <= i < |s.calls| ensures Shape(s.calls[i]) && Owed(s.calls[i]) == {} {
      assert Fresh(s.calls[i]);
    }
  }

  /** Every state of every run keeps the invariant. */
  lemma {:induction false} RunKeepsInv<V>(cfg: Config<V>, run: seq<System<V>>, n: nat)
    requires Run(cfg, run) && n < |run|
    ensures Inv(cfg, run[n])
  {
    if n == 0 {
      InitHasInv(cfg, run[0]);
    } else {
      RunKeepsInv(cfg, run, n - 1);
      assert StepsAt(cfg, run, n - 1);
      var i: nat, fail :| StepOf(cfg, run[n - 1], i, fail, run[n]);
      StepKeepsInv(cfg, run[n - 1], i, fail, run[n]);
    }
  }
}
