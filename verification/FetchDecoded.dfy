/** fetch_decoded by a single caller, on the class: claim, fetch the misses, publish or give back. */
module FetchDecoded {
  import opened Wrappers
  import opened Arrays
  import opened TileStore
  import opened TileSource
  import opened TileCache
  import opened FetchEffects
  import FetchProtocol
  import Laws = TileStoreLaws

  /** Keys of the given indices. */
  ghost function KeysAt(keys: seq<Key>, indices: seq<nat>): set<Key> {
    set m | 0 <= m < |indices| && indices[m] < |keys| :: keys[indices[m]]
  }

  /** What the claims have come to after `n` keys: hits hold the source's tile, the rest is owed. */
  ghost predicate Claimed<V>(source: Source<V>, keys: seq<Key>, out: seq<Option<Array<V>>>, misses: seq<nat>) {
    && |out| <= |keys|
    && (forall m :: 0 <= m < |misses| ==> misses[m] < |out| && out[misses[m]].None?)
    && (forall m, n :: 0 <= m < n < |misses| ==> misses[m] < misses[n])
    && (forall j :: 0 <= j < |out| && out[j].None? ==> j in misses)
    && (forall j :: 0 <= j < |out| && out[j].Some? ==> source(keys[j]) == Tile(out[j].value))
  }

  lemma ClaimedHit<V>(source: Source<V>, keys: seq<Key>, out: seq<Option<Array<V>>>, misses: seq<nat>, arr: Array<V>)
    requires Claimed(source, keys, out, misses) && |out| < |keys| && source(keys[|out|]) == Tile(arr)
    ensures Claimed(source, keys, out + [Some(arr)], misses)
  {
  }

  lemma ClaimedMiss<V>(source: Source<V>, keys: seq<Key>, out: seq<Option<Array<V>>>, misses: seq<nat>,
                       more: seq<nat>)
    requires Claimed(source, keys, out, misses) && |out| < |keys| && more == misses + [|out|]
    ensures Claimed(source, keys, out + [None], more)
  {
    assert more[|misses|] == |out|;
    forall j | 0 <= j < |out| && out[j].None? ensures j in more {
      assert j in misses;
    }
  }

  /** After the first m misses are decoded: what is still empty is a later miss. */
  ghost predicate DecodedUpTo<V>(source: Source<V>, keys: seq<Key>, out: seq<Option<Array<V>>>, misses: seq<nat>,
                                 m: nat) {
    && |out| == |keys| && m <= |misses|
    && (forall j :: 0 <= j < |out| && out[j].None? ==> j in misses[m..])
    && (forall j :: 0 <= j < |out| && out[j].Some? ==> source(keys[j]) == Tile(out[j].value))
  }

  lemma DecodedNext<V>(source: Source<V>, keys: seq<Key>, out: seq<Option<Array<V>>>, misses: seq<nat>, m: nat,
                       arr: Array<V>)
    requires DecodedUpTo(source, keys, out, misses, m) && m < |misses| && misses[m] < |keys|
    requires source(keys[misses[m]]) == Tile(arr)
    ensures DecodedUpTo(source, keys, out[misses[m] := Some(arr)], misses, m + 1)
  {
    assert misses[m..] == [misses[m]] + misses[m + 1..];
  }

  /** `pending` is `before` plus the owed keys. */
  ghost predicate OwesExactly(before: map<Key, Sig>, pending: map<Key, Sig>, owed: set<Key>) {
    && pending.Keys == before.Keys + owed
    && forall k :: k in before ==> pending[k] == before[k]
  }

  lemma KeysAtGrows(keys: seq<Key>, indices: seq<nat>, i: nat)
    requires i < |keys| && forall m :: 0 <= m < |indices| ==> indices[m] < |keys|
    ensures KeysAt(keys, indices + [i]) == KeysAt(keys, indices) + {keys[i]}
  {
    var more := indices + [i];
    forall k ensures k in KeysAt(keys, more) <==> k in KeysAt(keys, indices) || k == keys[i] {
      if k in KeysAt(keys, indices) {
        var m :| 0 <= m < |indices| && keys[indices[m]] == k;
        assert keys[more[m]] == k;
      }
      assert keys[more[|indices|]] == keys[i];
    }
  }

  lemma KeysAtShrinks(keys: seq<Key>, indices: seq<nat>, n: nat)
    requires FetchProtocol.DistinctKeys(keys) && n < |indices|
    requires forall m :: 0 <= m < |indices| ==> indices[m] < |keys|
    requires forall l, m :: 0 <= l < m < |indices| ==> indices[l] < indices[m]
    ensures KeysAt(keys, indices[n..]) == KeysAt(keys, indices[n + 1..]) + {keys[indices[n]]}
    ensures keys[indices[n]] !in KeysAt(keys, indices[n + 1..])
  {
    var these, rest := indices[n..], indices[n + 1..];
    forall k ensures k in KeysAt(keys, these) <==> k in KeysAt(keys, rest) || k == keys[indices[n]] {
      if k in KeysAt(keys, these) {
        var m :| 0 <= m < |these| && keys[these[m]] == k;
        assert m > 0 ==> rest[m - 1] == these[m];
      }
      if k in KeysAt(keys, rest) {
        var m :| 0 <= m < |rest| && keys[rest[m]] == k;
        assert these[m + 1] == rest[m];
      }
      assert these[0] == indices[n];
    }
  }

  /** The cache is consistent and holds only the source's own tiles. */
  ghost predicate Sound<V>(cache: TileCache<V>, source: Source<V>)
    reads cache
  {
    cache.Valid() && OnlyTrueTiles(source, cache.View().ready)
  }

  ghost function PendingIn<V>(cache: TileCache<V>): map<Key, Sig>
    reads cache
  {
    cache.View().pending
  }

  /** Claim a key: a hit, the caller's to fetch, or the signal of whoever is fetching it. */
  method ClaimKey<V>(cache: TileCache<V>, source: Source<V>, key: Key) returns (o: Outcome<V>)
    requires Sound(cache, source)
    modifies cache
    ensures Sound(cache, source) && (cache.View(), o) == TryClaim(old(cache.View()), key)
    ensures o.Busy? <==> key in old(PendingIn(cache))
    ensures o.Busy? ==> o.sig == old(PendingIn(cache))[key]
    ensures o.Hit? ==> source(key) == Tile(o.arr)
    ensures !o.Mine? ==> PendingIn(cache) == old(PendingIn(cache))
    ensures o.Mine? ==> OwesExactly(old(PendingIn(cache)), PendingIn(cache), {key})
  {
    ghost var before := cache.View();
    cache.ViewIsValid();
    Laws.TryClaimEffect(before, key);
    o := cache.TryClaimOne(key);
    assert o.Hit? ==> Entry(key, o.arr) in before.ready;
  }

  method PublishKey<V>(cache: TileCache<V>, source: Source<V>, key: Key, arr: Array<V>)
    requires Sound(cache, source) && source(key) == Tile(arr)
    modifies cache
    ensures Sound(cache, source) && PendingIn(cache) == old(PendingIn(cache)) - {key}
    ensures cache.View() == Publish(old(cache.View()), cache.maxBytes, key, arr).0
  {
    cache.ViewIsValid();
    Laws.PublishKeeps(cache.View(), cache.maxBytes, key, arr);
    cache.Fulfill(key, arr);
  }

  method GiveBackKey<V>(cache: TileCache<V>, source: Source<V>, key: Key)
    requires Sound(cache, source)
    modifies cache
    ensures Sound(cache, source) && PendingIn(cache) == old(PendingIn(cache)) - {key}
    ensures cache.View().ready == old(cache.View().ready)
  {
    cache.ViewIsValid();
    Laws.ReleaseEffect(cache.View(), key);
    cache.Abort(key);
  }

  lemma OwesMore(before: map<Key, Sig>, pending: map<Key, Sig>, pending': map<Key, Sig>, owed: set<Key>, key: Key)
    requires OwesExactly(before, pending, owed) && OwesExactly(pending, pending', {key})
    ensures OwesExactly(before, pending', owed + {key})
  {
  }

  lemma OwesLess(before: map<Key, Sig>, pending: map<Key, Sig>, owed: set<Key>, key: Key)
    requires OwesExactly(before, pending, owed + {key}) && key !in before && key !in owed
    ensures OwesExactly(before, pending - {key}, owed)
  {
  }

  lemma OwesNothing(before: map<Key, Sig>, pending: map<Key, Sig>)
    requires OwesExactly(before, pending, {})
    ensures pending == before
  {
  }

  /** When no miss is left nothing is owed. */
  lemma NothingLeft(before: map<Key, Sig>, pending: map<Key, Sig>, keys: seq<Key>, rest: seq<nat>)
    requires rest == [] && OwesExactly(before, pending, KeysAt(keys, rest))
    ensures pending == before
  {
    assert KeysAt(keys, rest) == {};
    OwesNothing(before, pending);
  }

  /** When no miss is left every slot is filled with the source's tile. */
  lemma AllFilled<V>(source: Source<V>, keys: seq<Key>, out: seq<Option<Array<V>>>, misses: seq<nat>)
    requires DecodedUpTo(source, keys, out, misses, |misses|)
    ensures |out| == |keys| && forall j :: 0 <= j < |keys| ==> out[j].Some? && source(keys[j]) == Tile(out[j].value)
  {
  }

  /** The first of the keys that is pending. */
  ghost predicate FirstPending(keys: seq<Key>, pending: map<Key, Sig>, j: nat) {
    j < |keys| && keys[j] in pending && forall l :: 0 <= l < j ==> keys[l] !in pending
  }

  lemma NotOwedYet(keys: seq<Key>, misses: seq<nat>, i: nat)
    requires FetchProtocol.DistinctKeys(keys) && i < |keys| && forall m :: 0 <= m < |misses| ==> misses[m] < i
    ensures keys[i] !in KeysAt(keys, misses)
  {
  }

  lemma OneMoreMiss<V>(source: Source<V>, keys: seq<Key>, out: seq<Option<Array<V>>>, misses: seq<nat>, more: seq<nat>,
                       first: map<Key, Sig>, before: map<Key, Sig>, pending: map<Key, Sig>)
    requires Claimed(source, keys, out, misses) && |out| < |keys| && more == misses + [|out|]
    requires OwesExactly(first, before, KeysAt(keys, misses)) && OwesExactly(before, pending, {keys[|out|]})
    ensures Claimed(source, keys, out + [None], more) && OwesExactly(first, pending, KeysAt(keys, more))
  {
    KeysAtGrows(keys, misses, |out|);
    OwesMore(first, before, pending, KeysAt(keys, misses), keys[|out|]);
    ClaimedMiss(source, keys, out, misses, more);
  }

  /** Where the claims stand: none of the keys so far was pending, and what is missing is owed. */
  ghost predicate ClaimedSofar<V>(source: Source<V>, keys: seq<Key>, first: map<Key, Sig>, pending: map<Key, Sig>,
                                  out: seq<Option<Array<V>>>, misses: seq<nat>) {
    && Claimed(source, keys, out, misses) && OwesExactly(first, pending, KeysAt(keys, misses))
    && forall j :: 0 <= j < |out| ==> keys[j] !in first
  }

  /** Claim the next key; busy if somebody was fetching it before this call. */
  method ClaimNextKey<V>(cache: TileCache<V>, source: Source<V>, keys: seq<Key>, sofar: seq<Option<Array<V>>>,
                      owed: seq<nat>, ghost first: map<Key, Sig>)
      returns (out: seq<Option<Array<V>>>, misses: seq<nat>, busy: Option<Sig>)
    requires Sound(cache, source) && FetchProtocol.DistinctKeys(keys) && |sofar| < |keys|
    requires ClaimedSofar(source, keys, first, PendingIn(cache), sofar, owed)
    modifies cache
    ensures Sound(cache, source) && ClaimedSofar(source, keys, first, PendingIn(cache), out, misses)
    ensures cache.View() == TryClaim(old(cache.View()), keys[|sofar|]).0
    ensures busy.None? ==> |out| == |sofar| + 1
    ensures busy.None? ==> misses == if Has(old(cache.View().ready), keys[|sofar|]) then owed else owed + [|sofar|]
    ensures busy.Some? ==> |out| == |sofar| && keys[|out|] in first && busy.value == first[keys[|out|]]
  {
    ghost var before := PendingIn(cache);
    NotOwedYet(keys, owed, |sofar|);
    out, misses, busy := sofar, owed, None;
    var o := ClaimKey(cache, source, keys[|sofar|]);
    match o
    case Busy(sig) => busy := Some(sig);
    case Hit(arr) =>
      ClaimedHit(source, keys, sofar, owed, arr);
      out := sofar + [Some(arr)];
    case Mine =>
      OneMoreMiss(source, keys, sofar, owed, owed + [|sofar|], first, before, PendingIn(cache));
      out, misses := sofar + [None], owed + [|sofar|];
  }

  /** Claim in order, up to the first key somebody else is fetching: there the call goes to wait. */
  method ClaimAll<V>(cache: TileCache<V>, source: Source<V>, keys: seq<Key>)
      returns (out: seq<Option<Array<V>>>, misses: seq<nat>, busy: Option<Sig>)
    requires Sound(cache, source) && FetchProtocol.DistinctKeys(keys)
    modifies cache
    ensures Sound(cache, source)
    ensures ClaimedSofar(source, keys, old(PendingIn(cache)), PendingIn(cache), out, misses)
    ensures busy.None? ==> |out| == |keys|
    ensures busy.None? ==> ClaimedOver(old(cache.View()), cache.View(), keys, |keys|, misses)
    ensures busy.Some? ==>
              FirstPending(keys, old(PendingIn(cache)), |out|) && busy.value == old(PendingIn(cache))[keys[|out|]]
  {
    ghost var first, start := PendingIn(cache), cache.View();
    cache.ViewIsValid();
    out, misses, busy := [], [], None;
    for i := 0 to |keys|
      invariant Sound(cache, source) && |out| == i && busy.None?
      invariant ClaimedSofar(source, keys, first, PendingIn(cache), out, misses)
      invariant ClaimedOver(start, cache.View(), keys, i, misses)
    {
      ghost var here, sofar := cache.View(), misses;
      out, misses, busy := ClaimNextKey(cache, source, keys, out, misses, first);
      if busy.Some? {
        return;
      }
      ClaimedNext(start, here, cache.View(), keys, i, sofar, misses);
    }
  }

  /** Increasing indices of keys that were not pending before. */
  ghost predicate Indices(keys: seq<Key>, misses: seq<nat>, before: map<Key, Sig>) {
    && (forall l :: 0 <= l < |misses| ==> misses[l] < |keys| && keys[misses[l]] !in before)
    && (forall l, n :: 0 <= l < n < |misses| ==> misses[l] < misses[n])
  }

  lemma LaterIndices(keys: seq<Key>, misses: seq<nat>, m: nat, before: map<Key, Sig>)
    requires Indices(keys, misses, before) && m <= |misses|
    ensures Indices(keys, misses[m..], before)
  {
  }

  method AbortOne<V>(cache: TileCache<V>, source: Source<V>, keys: seq<Key>, misses: seq<nat>, m: nat,
                     ghost before: map<Key, Sig>)
    requires Sound(cache, source) && FetchProtocol.DistinctKeys(keys) && m < |misses|
    requires Indices(keys, misses, before)
    requires OwesExactly(before, PendingIn(cache), KeysAt(keys, misses[m..]))
    modifies cache
    ensures Sound(cache, source) && OwesExactly(before, PendingIn(cache), KeysAt(keys, misses[m + 1..]))
    ensures cache.View().ready == old(cache.View().ready)
  {
    KeysAtShrinks(keys, misses, m);
    OwesLess(before, PendingIn(cache), KeysAt(keys, misses[m + 1..]), keys[misses[m]]);
    GiveBackKey(cache, source, keys[misses[m]]);
  }

  /** Give back the misses of `rest`, in order. */
  method AbortAll<V>(cache: TileCache<V>, source: Source<V>, keys: seq<Key>, rest: seq<nat>,
                     ghost before: map<Key, Sig>)
    requires Sound(cache, source) && FetchProtocol.DistinctKeys(keys) && Indices(keys, rest, before)
    requires OwesExactly(before, PendingIn(cache), KeysAt(keys, rest))
    modifies cache
    ensures Sound(cache, source) && PendingIn(cache) == before
    ensures cache.View().ready == old(cache.View().ready)
  {
    assert rest[0..] == rest;
    for m := 0 to |rest|
      invariant Sound(cache, source) && cache.View().ready == old(cache.View().ready)
      invariant OwesExactly(before, PendingIn(cache), KeysAt(keys, rest[m..]))
    {
      AbortOne(cache, source, keys, rest, m, before);
    }
    NothingLeft(before, PendingIn(cache), keys, rest[|rest|..]);
  }

  /** Decode and publish the m-th miss; if it does not decode give it and the later ones back. */
  method DecodeOne<V>(cache: TileCache<V>, source: Source<V>, keys: seq<Key>, misses: seq<nat>, m: nat,
                      filled: seq<Option<Array<V>>>, ghost before: map<Key, Sig>)
      returns (out: seq<Option<Array<V>>>, ok: bool)
    requires Sound(cache, source) && FetchProtocol.DistinctKeys(keys) && m < |misses|
    requires Indices(keys, misses, before)
    requires DecodedUpTo(source, keys, filled, misses, m) && !source(keys[misses[m]]).FetchFails?
    requires OwesExactly(before, PendingIn(cache), KeysAt(keys, misses[m..]))
    modifies cache
    ensures Sound(cache, source)
    ensures ok ==> DecodedUpTo(source, keys, out, misses, m + 1)
    ensures ok ==> OwesExactly(before, PendingIn(cache), KeysAt(keys, misses[m + 1..]))
    ensures ok ==> PublishedOne(old(cache.View()), cache.View(), cache.maxBytes, source, keys[misses[m]])
    ensures !ok ==> PendingIn(cache) == before && !AllDecode(source, keys)
    ensures !ok ==> source(keys[misses[m]]).DecodeFails? && cache.View().ready == old(cache.View().ready)
  {
    var i := misses[m];
    out := filled;
    if source(keys[i]).DecodeFails? {
      LaterIndices(keys, misses, m, before);
      AbortAll(cache, source, keys, misses[m..], before);
      return out, false;
    }
    KeysAtShrinks(keys, misses, m);
    OwesLess(before, PendingIn(cache), KeysAt(keys, misses[m + 1..]), keys[i]);
    DecodedNext(source, keys, filled, misses, m, source(keys[i]).arr);
    PublishKey(cache, source, keys[i], source(keys[i]).arr);
    out := filled[i := Some(source(keys[i]).arr)];
    ok := true;
  }

  /** Decode and publish the misses in order; at the first tile that does not decode give the rest back. */
  method DecodeMisses<V>(cache: TileCache<V>, source: Source<V>, keys: seq<Key>, misses: seq<nat>,
                         claimed: seq<Option<Array<V>>>, ghost before: map<Key, Sig>)
      returns (out: seq<Option<Array<V>>>, ok: bool)
    requires Sound(cache, source) && FetchProtocol.DistinctKeys(keys)
    requires |claimed| == |keys| && Claimed(source, keys, claimed, misses)
    requires forall m :: 0 <= m < |misses| ==> keys[misses[m]] !in before && !source(keys[misses[m]]).FetchFails?
    requires OwesExactly(before, PendingIn(cache), KeysAt(keys, misses))
    modifies cache
    ensures Sound(cache, source) && PendingIn(cache) == before
    ensures |out| == |keys|
    ensures ok ==> forall j :: 0 <= j < |keys| ==> out[j].Some? && source(keys[j]) == Tile(out[j].value)
    ensures ok ==>
              PublishedUpTo(old(cache.View()), cache.View(), cache.maxBytes, source, keys, misses, |misses|)
    ensures !ok ==> !AllDecode(source, keys)
    ensures !ok ==> exists m: nat ::
              StopsAtDecoding(old(cache.View()), cache.View().ready, cache.maxBytes, source, keys, misses, m)
  {
    out := claimed;
    ghost var start := cache.View();
    assert misses[0..] == misses;
    for m := 0 to |misses|
      invariant Sound(cache, source)
      invariant PublishedUpTo(start, cache.View(), cache.maxBytes, source, keys, misses, m)
      invariant DecodedUpTo(source, keys, out, misses, m)
      invariant OwesExactly(before, PendingIn(cache), KeysAt(keys, misses[m..]))
    {
      ghost var here := cache.View();
      out, ok := DecodeOne(cache, source, keys, misses, m, out, before);
      if !ok {
        assert StopsAtDecoding(start, cache.View().ready, cache.maxBytes, source, keys, misses, m);
        return claimed, false;
      }
      PublishedNext(start, here, cache.View(), cache.maxBytes, source, keys, misses, m);
    }
    NothingLeft(before, PendingIn(cache), keys, misses[|misses|..]);
    AllFilled(source, keys, out, misses);
    ok := true;
  }

  /** One merged fetch of the misses that fails as a whole, then the decoding. */
  method FetchMisses<V>(cache: TileCache<V>, source: Source<V>, keys: seq<Key>, claimed: seq<Option<Array<V>>>,
                        misses: seq<nat>, ghost before: map<Key, Sig>) returns (r: Result<seq<Array<V>>, MetaError>)
    requires Sound(cache, source) && FetchProtocol.DistinctKeys(keys)
    requires |claimed| == |keys| && Claimed(source, keys, claimed, misses) && Indices(keys, misses, before)
    requires OwesExactly(before, PendingIn(cache), KeysAt(keys, misses))
    modifies cache
    ensures r == FetchAll(source, keys)
    ensures Sound(cache, source) && PendingIn(cache) == before
    ensures r.Ok? ==>
              PublishedUpTo(old(cache.View()), cache.View(), cache.maxBytes, source, keys, misses, |misses|)
    ensures r.Err? ==> LeftByFailure(old(cache.View()), cache.View().ready, cache.maxBytes, source, keys, misses)
  {
    for m := 0 to |misses|
      invariant forall l :: 0 <= l < m ==> !source(keys[misses[l]]).FetchFails?
    {
      if source(keys[misses[m]]).FetchFails? {
        AbortAll(cache, source, keys, misses, before);
        return Err(Tiff);
      }
    }
    var out, ok := DecodeMisses(cache, source, keys, misses, claimed, before);
    if !ok {
      return Err(Tiff);
    }
    FilledIsFetchAll(source, keys, out);
    r := Ok(Unwrapped(out));
  }

  /** The keys pending after a call has gone to wait: those from before, and its own before its j-th key. */
  ghost predicate HoldsBefore(before: map<Key, Sig>, pending: map<Key, Sig>, keys: seq<Key>, j: nat)
    requires j <= |keys|
  {
    && before.Keys <= pending.Keys <= before.Keys + set k | k in keys[..j]
    && forall k :: k in before ==> pending[k] == before[k]
  }

  /** The cached path. When nobody else is fetching any of its keys it returns what the uncached path returns, and on
      every exit each key it claimed is settled: nothing it touched stays pending. Otherwise it goes to wait for the
      first such key (None), holding what it has claimed before it. It counts and publishes as Fetched says, or
      leaves what LeftByFailure says; if its tiles fit the budget together all of them are resident afterwards. */
  method FetchCached<V>(cache: TileCache<V>, source: Source<V>,
                        keys: seq<Key>) returns (r: Option<Result<seq<Array<V>>, MetaError>>)
    requires Sound(cache, source) && FetchProtocol.DistinctKeys(keys)
    modifies cache
    ensures Sound(cache, source)
    ensures r.None? <==> exists j :: 0 <= j < |keys| && keys[j] in old(PendingIn(cache))
    ensures r.Some? ==> r.value == FetchAll(source, keys) && PendingIn(cache) == old(PendingIn(cache))
    ensures r.Some? && r.value.Ok? ==>
              cache.View() == Fetched(old(cache.View()), cache.maxBytes, source, keys)
    ensures r.Some? && r.value.Err? ==>
              LeftByFailure(ClaimTo(old(cache.View()), keys, |keys|), cache.View().ready, cache.maxBytes, source, keys,
                            MissesTo(old(cache.View().ready), keys, |keys|))
    ensures r.Some? && r.value.Ok? && BytesOf(source, keys) <= cache.maxBytes ==>
              forall j :: 0 <= j < |keys| ==> Has(cache.View().ready, keys[j])
    ensures r.None? ==> exists j: nat ::
              && FirstPending(keys, old(PendingIn(cache)), j)
              && HoldsBefore(old(PendingIn(cache)), PendingIn(cache), keys, j)
  {
    ghost var before, start := PendingIn(cache), cache.View();
    cache.ViewIsValid();
    var out, misses, busy := ClaimAll(cache, source, keys);
    if busy.Some? {
      assert HoldsBefore(before, PendingIn(cache), keys, |out|);
      return None;
    }
    var fetched := FetchMisses(cache, source, keys, out, misses, before);
    r := Some(fetched);
    if fetched.Ok? && BytesOf(source, keys) <= cache.maxBytes {
      forall j | 0 <= j < |keys| ensures Has(cache.View().ready, keys[j]) {
        FetchedIsResident(start, cache.maxBytes, source, keys, j);
      }
    }
  }
}
