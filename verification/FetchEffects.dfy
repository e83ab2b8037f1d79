/** What one fetch_decoded call that nobody disturbs does to the cache: it claims its keys in order and publishes those
    that were not resident. If its tiles fit the budget together, all of them are resident afterwards. */
module FetchEffects {
  import opened Wrappers
  import opened Arrays
  import opened TileStore
  import opened TileSource
  import Laws = TileStoreLaws

  ghost predicate OnlyTrueTiles<V>(source: Source<V>, ready: seq<Entry<V>>) {
    forall e | e in ready :: source(e.key) == Tile(e.arr)
  }

  /** The first n keys claimed. */
  ghost function ClaimTo<V>(s: Store<V>, keys: seq<Key>, n: nat): Store<V>
    requires n <= |keys|
  {
    if n == 0 then s else TryClaim(ClaimTo(s, keys, n - 1), keys[n - 1]).0
  }

  /** The indices below n of keys that are not resident. */
  ghost function MissesTo<V>(ready: seq<Entry<V>>, keys: seq<Key>, n: nat): seq<nat>
    requires n <= |keys|
  {
    if n == 0 then []
    else if Has(ready, keys[n - 1]) then MissesTo(ready, keys, n - 1)
    else MissesTo(ready, keys, n - 1) + [n - 1]
  }

  ghost predicate Decodes<V>(source: Source<V>, keys: seq<Key>, indices: seq<nat>, m: nat) {
    m <= |indices| && forall l :: 0 <= l < m ==> indices[l] < |keys| && source(keys[indices[l]]).Tile?
  }

  /** The keys of the first m indices published. */
  ghost function PublishTo<V>(s: Store<V>, maxBytes: nat, source: Source<V>, keys: seq<Key>, indices: seq<nat>,
                              m: nat): Store<V>
    requires Decodes(source, keys, indices, m)
  {
    if m == 0 then s
    else
      var key := keys[indices[m - 1]];
      Publish(PublishTo(s, maxBytes, source, keys, indices, m - 1), maxBytes, key, source(key).arr).0
  }

  /** t is s after the key's tile is published. */
  ghost predicate PublishedOne<V>(s: Store<V>, t: Store<V>, maxBytes: nat, source: Source<V>, key: Key) {
    source(key).Tile? && t == Publish(s, maxBytes, key, source(key).arr).0
  }

  /** t is s after the keys of the first m indices are published. */
  ghost predicate PublishedUpTo<V>(s: Store<V>, t: Store<V>, maxBytes: nat, source: Source<V>, keys: seq<Key>,
                                   indices: seq<nat>, m: nat) {
    Decodes(source, keys, indices, m) && t == PublishTo(s, maxBytes, source, keys, indices, m)
  }

  lemma PublishedNext<V>(s: Store<V>, t: Store<V>, t': Store<V>, maxBytes: nat, source: Source<V>, keys: seq<Key>,
                         indices: seq<nat>, m: nat)
    requires PublishedUpTo(s, t, maxBytes, source, keys, indices, m) && m < |indices| && indices[m] < |keys|
    requires PublishedOne(t, t', maxBytes, source, keys[indices[m]])
    ensures PublishedUpTo(s, t', maxBytes, source, keys, indices, m + 1)
  {
  }

  /** What a failed call leaves resident: as after its claims if one of its misses could not be fetched, else as after
      the misses before the first that does not decode were published. */
  ghost predicate LeftByFailure<V>(s: Store<V>, ready: seq<Entry<V>>, maxBytes: nat, source: Source<V>, keys: seq<Key>,
                                   misses: seq<nat>) {
    if exists l :: 0 <= l < |misses| && misses[l] < |keys| && source(keys[misses[l]]).FetchFails? then ready == s.ready
    else exists m: nat :: StopsAtDecoding(s, ready, maxBytes, source, keys, misses, m)
  }

  ghost predicate StopsAtDecoding<V>(s: Store<V>, ready: seq<Entry<V>>, maxBytes: nat, source: Source<V>,
                                     keys: seq<Key>, misses: seq<nat>, m: nat) {
    && m < |misses| && misses[m] < |keys| && source(keys[misses[m]]).DecodeFails?
    && Decodes(source, keys, misses, m) && ready == PublishTo(s, maxBytes, source, keys, misses, m).ready
  }

  /** All keys claimed and all that were not resident published. */
  ghost function Fetched<V>(s: Store<V>, maxBytes: nat, source: Source<V>, keys: seq<Key>): Store<V>
    requires AllDecode(source, keys)
  {
    MissesInRange(s.ready, keys, |keys|);
    var misses := MissesTo(s.ready, keys, |keys|);
    PublishTo(ClaimTo(s, keys, |keys|), maxBytes, source, keys, misses, |misses|)
  }

  lemma {:induction false} MissesInRange<V>(ready: seq<Entry<V>>, keys: seq<Key>, n: nat)
    requires n <= |keys|
    ensures forall j :: j in MissesTo(ready, keys, n) <==> 0 <= j < n && !Has(ready, keys[j])
    ensures forall l :: 0 <= l < |MissesTo(ready, keys, n)| ==> MissesTo(ready, keys, n)[l] < n
  {
    if n > 0 {
      MissesInRange(ready, keys, n - 1);
      var before, misses := MissesTo(ready, keys, n - 1), MissesTo(ready, keys, n);
      assert forall l :: 0 <= l < |misses| ==> misses[l] in misses;
    }
  }

  // ---- recent tiles -------------------------------------------------------------------------

  ghost predicate HasExactly<V>(ready: seq<Entry<V>>, keys: set<Key>) {
    forall k {:trigger Has(ready, k)} :: Has(ready, k) <==> k in keys
  }

  /** The most recent tiles are those of `touched`. */
  ghost predicate Recent<V>(ready: seq<Entry<V>>, touched: set<Key>) {
    exists n :: 0 <= n <= |ready| && HasExactly(ready[n..], touched)
  }

  lemma {:induction false} WithoutConcat<V>(a: seq<Entry<V>>, b: seq<Entry<V>>, key: Key)
    ensures Without(a + b, key) == Without(a, key) + Without(b, key)
  {
    if b == [] {
      assert a + b == a;
    } else {
      assert (a + b)[..|a + b| - 1] == a + b[..|b| - 1];
      WithoutConcat(a, b[..|b| - 1], key);
    }
  }

  /** A tile put at the recent end, in place of an older one of its key: where the recent ones now begin. */
  lemma TouchedAt<V>(ready: seq<Entry<V>>, e: Entry<V>, n: nat, touched: set<Key>) returns (m: nat)
    requires n <= |ready| && HasExactly(ready[n..], touched)
    ensures var all := Without(ready, e.key) + [e]; m < |all| && HasExactly(all[m..], touched + {e.key})
  {
    var older, newer := Without(ready[..n], e.key), Without(ready[n..], e.key);
    assert ready == ready[..n] + ready[n..];
    WithoutConcat(ready[..n], ready[n..], e.key);
    m := |older|;
    assert (older + newer + [e])[m..] == newer + [e];
    forall k ensures Has(newer + [e], k) <==> k in touched + {e.key} {
      Laws.HasAppend(newer, e, k);
      Laws.WithoutHas(ready[n..], e.key, k);
    }
  }

  /** Bytes of the tiles of `keys`. */
  ghost function BytesOf<V>(source: Source<V>, keys: seq<Key>): nat {
    if keys == [] then 0
    else
      var last := source(keys[|keys| - 1]);
      BytesOf(source, keys[..|keys| - 1]) + if last.Tile? then ArrayBytes(last.arr) else 0
  }

  lemma {:induction false} BytesOfWithout<V>(source: Source<V>, keys: seq<Key>, i: nat, arr: Array<V>)
    requires i < |keys| && source(keys[i]) == Tile(arr)
    ensures BytesOf(source, keys) == BytesOf(source, keys[..i] + keys[i + 1..]) + ArrayBytes(arr)
  {
    var n := |keys| - 1;
    var fewer := keys[..i] + keys[i + 1..];
    if i == n {
      assert fewer == keys[..n];
    } else {
      BytesOfWithout(source, keys[..n], i, arr);
      assert fewer[..n - 1] == keys[..n][..i] + keys[..n][i + 1..];
      assert fewer[n - 1] == keys[n];
    }
  }

  /** Tiles of some of the keys have at most the bytes of all. */
  lemma {:induction false} BytesWithinKeys<V>(source: Source<V>, ready: seq<Entry<V>>, keys: seq<Key>)
    requires Distinct(ready) && OnlyTrueTiles(source, ready) && forall e :: e in ready ==> e.key in keys
    ensures Bytes(ready) <= BytesOf(source, keys)
  {
    if ready != [] {
      var e, rest := ready[0], ready[1..];
      assert e in ready;
      var i :| 0 <= i < |keys| && keys[i] == e.key;
      var fewer := keys[..i] + keys[i + 1..];
      forall x | x in rest ensures x.key in fewer && x in ready {
        var j :| 0 <= j < |rest| && rest[j] == x;
        assert ready[j + 1] == x;
        var k :| 0 <= k < |keys| && keys[k] == x.key;
        assert k < i ==> fewer[k] == x.key;
        assert k > i ==> fewer[k - 1] == x.key;
      }
      BytesWithinKeys(source, rest, fewer);
      BytesOfWithout(source, keys, i, e.arr);
    }
  }

  lemma InListHas<V>(ready: seq<Entry<V>>, e: Entry<V>)
    requires e in ready
    ensures Has(ready, e.key)
  {
    var i :| 0 <= i < |ready| && ready[i] == e;
  }

  /** If the tiles of all keys fit the budget together, shrinking keeps the recent ones of them. */
  lemma RecentSurvives<V>(source: Source<V>, all: seq<Entry<V>>, maxBytes: nat, keys: seq<Key>, m: nat,
                          touched: set<Key>)
    requires Distinct(all) && OnlyTrueTiles(source, all) && m <= |all| && HasExactly(all[m..], touched)
    requires (forall k :: k in touched ==> k in keys) && BytesOf(source, keys) <= maxBytes
    ensures Recent(Shrink(all, maxBytes), touched)
  {
    var kept := Shrink(all, maxBytes);
    ShrinkIsLongestFittingSuffix(all, maxBytes);
    forall e | e in all[m..] ensures e.key in keys && e in all {
      InListHas(all[m..], e);
    }
    BytesWithinKeys(source, all[m..], keys);
    var d := |all| - |kept|;
    assert m >= d;
    assert kept[m - d..] == all[m..];
  }

  // ---- claims and publications --------------------------------------------------------------

  /** Keys that can be claimed without waiting: distinct, none of them pending. */
  ghost predicate Undisturbed<V>(s: Store<V>, keys: seq<Key>) {
    && (forall j :: 0 <= j < |keys| ==> keys[j] !in s.pending)
    && forall i, j :: 0 <= i < j < |keys| ==> keys[i] != keys[j]
  }

  /** Claims of keys that are not pending leave the same tiles resident, and each is counted. */
  lemma {:induction false} ClaimsEffect<V>(s: Store<V>, keys: seq<Key>, n: nat)
    requires Valid(s) && n <= |keys| && Undisturbed(s, keys)
    ensures var t, misses := ClaimTo(s, keys, n), MissesTo(s.ready, keys, n);
            && Valid(t) && Bytes(t.ready) == Bytes(s.ready)
            && (forall k :: Has(t.ready, k) <==> Has(s.ready, k)) && (forall e | e in t.ready :: e in s.ready)
            && (forall j :: n <= j < |keys| ==> keys[j] !in t.pending)
            && t.misses == s.misses + |misses| && t.hits == s.hits + n - |misses| && t.evictions == s.evictions
  {
    if n > 0 {
      ClaimsEffect(s, keys, n - 1);
      Laws.TryClaimEffect(ClaimTo(s, keys, n - 1), keys[n - 1]);
    }
  }

  /** No claim, whatever is pending, makes a tile resident or takes one away. */
  lemma {:induction false} ClaimsKeepTile<V>(s: Store<V>, keys: seq<Key>, n: nat, k: Key)
    requires Valid(s) && n <= |keys|
    ensures Valid(ClaimTo(s, keys, n)) && (Has(ClaimTo(s, keys, n).ready, k) <==> Has(s.ready, k))
  {
    if n > 0 {
      ClaimsKeepTile(s, keys, n - 1, k);
      Laws.TryClaimEffect(ClaimTo(s, keys, n - 1), keys[n - 1]);
    }
  }

  /** t is s after the first n keys are claimed, and `misses` are those of them that were not resident. */
  ghost predicate ClaimedOver<V>(s: Store<V>, t: Store<V>, keys: seq<Key>, n: nat, misses: seq<nat>) {
    n <= |keys| && t == ClaimTo(s, keys, n) && misses == MissesTo(s.ready, keys, n)
  }

  lemma ClaimedNext<V>(s: Store<V>, t: Store<V>, t': Store<V>, keys: seq<Key>, n: nat, misses: seq<nat>,
                       misses': seq<nat>)
    requires Valid(s) && ClaimedOver(s, t, keys, n, misses) && n < |keys| && t' == TryClaim(t, keys[n]).0
    requires misses' == if Has(t.ready, keys[n]) then misses else misses + [n]
    ensures ClaimedOver(s, t', keys, n + 1, misses')
  {
    ClaimsKeepTile(s, keys, n, keys[n]);
  }

  /** Of the first n keys, those that were resident. */
  ghost function HitsTo<V>(ready: seq<Entry<V>>, keys: seq<Key>, n: nat): (hits: set<Key>)
    requires n <= |keys|
    ensures forall k :: k in hits ==> k in keys
    ensures forall j :: 0 <= j < n && Has(ready, keys[j]) ==> keys[j] in hits
  {
    if n == 0 then {} else HitsTo(ready, keys, n - 1) + if Has(ready, keys[n - 1]) then {keys[n - 1]} else {}
  }

  /** Hits become the most recent tiles. */
  lemma {:induction false} ClaimsTouch<V>(s: Store<V>, keys: seq<Key>, n: nat)
    requires Valid(s) && n <= |keys|
    ensures Recent(ClaimTo(s, keys, n).ready, HitsTo(s.ready, keys, n))
  {
    if n == 0 {
      assert HasExactly(s.ready[|s.ready|..], {});
    } else {
      ClaimsTouch(s, keys, n - 1);
      ClaimsKeepTile(s, keys, n - 1, keys[n - 1]);
      ClaimTouches(ClaimTo(s, keys, n - 1), keys[n - 1], HitsTo(s.ready, keys, n - 1), Has(s.ready, keys[n - 1]));
    }
  }

  lemma ClaimTouches<V>(t: Store<V>, key: Key, touched: set<Key>, hit: bool)
    requires Recent(t.ready, touched) && (hit <==> Has(t.ready, key))
    ensures Recent(TryClaim(t, key).0.ready, touched + if hit then {key} else {})
  {
    var n :| 0 <= n <= |t.ready| && HasExactly(t.ready[n..], touched);
    if hit {
      var m := TouchedAt(t.ready, Find(t.ready, key), n, touched);
    } else {
      assert touched + {} == touched;
    }
  }

  /** Where the publications stand: what the call has touched so far is the most recent. */
  ghost predicate PublishedSofar<V>(source: Source<V>, t: Store<V>, maxBytes: nat, touched: set<Key>) {
    Valid(t) && OnlyTrueTiles(source, t.ready) && Bytes(t.ready) <= maxBytes && Recent(t.ready, touched)
  }

  /** The list before it is shrunk: the published tile is the most recent, the touched ones next. */
  lemma PutTouches<V>(source: Source<V>, ready: seq<Entry<V>>, touched: set<Key>, e: Entry<V>, all: seq<Entry<V>>)
      returns (m: nat)
    requires Distinct(ready) && OnlyTrueTiles(source, ready) && Recent(ready, touched) && source(e.key) == Tile(e.arr)
    requires all == Without(ready, e.key) + [e]
    ensures Distinct(all) && OnlyTrueTiles(source, all) && m <= |all| && HasExactly(all[m..], touched + {e.key})
  {
    Laws.MoveToBack(ready, e);
    WithoutMembers(ready, e.key);
    var n :| 0 <= n <= |ready| && HasExactly(ready[n..], touched);
    m := TouchedAt(ready, e, n, touched);
  }

  lemma PublishTouches<V>(source: Source<V>, t: Store<V>, maxBytes: nat, touched: set<Key>, key: Key, arr: Array<V>,
                          keys: seq<Key>)
    requires PublishedSofar(source, t, maxBytes, touched) && source(key) == Tile(arr) && key in keys
    requires (forall k :: k in touched ==> k in keys) && BytesOf(source, keys) <= maxBytes
    ensures PublishedSofar(source, Publish(t, maxBytes, key, arr).0, maxBytes, touched + {key})
  {
    var all := Without(t.ready, key) + [Entry(key, arr)];
    Laws.PublishKeeps(t, maxBytes, key, arr);
    var m := PutTouches(source, t.ready, touched, Entry(key, arr), all);
    RecentSurvives(source, all, maxBytes, keys, m, touched + {key});
  }

  ghost function KeysTo(keys: seq<Key>, indices: seq<nat>, m: nat): (published: set<Key>)
    requires m <= |indices| && forall l :: 0 <= l < m ==> indices[l] < |keys|
    ensures forall k :: k in published ==> k in keys
    ensures forall l :: 0 <= l < m ==> keys[indices[l]] in published
  {
    if m == 0 then {} else KeysTo(keys, indices, m - 1) + {keys[indices[m - 1]]}
  }

  lemma {:induction false} PublicationsTouch<V>(source: Source<V>, s: Store<V>, maxBytes: nat, touched: set<Key>,
                                                keys: seq<Key>, indices: seq<nat>, m: nat)
    requires PublishedSofar(source, s, maxBytes, touched) && Decodes(source, keys, indices, m)
    requires (forall k :: k in touched ==> k in keys) && BytesOf(source, keys) <= maxBytes
    ensures PublishedSofar(source, PublishTo(s, maxBytes, source, keys, indices, m), maxBytes,
                           touched + KeysTo(keys, indices, m))
  {
    if m == 0 {
      assert touched + {} == touched;
    } else {
      PublicationsTouch(source, s, maxBytes, touched, keys, indices, m - 1);
      var before, key := touched + KeysTo(keys, indices, m - 1), keys[indices[m - 1]];
      PublishTouches(source, PublishTo(s, maxBytes, source, keys, indices, m - 1), maxBytes, before, key,
                     source(key).arr, keys);
      assert before + {key} == touched + KeysTo(keys, indices, m);
    }
  }

  lemma RecentHas<V>(ready: seq<Entry<V>>, touched: set<Key>, k: Key)
    requires Recent(ready, touched) && k in touched
    ensures Has(ready, k)
  {
    var n :| 0 <= n <= |ready| && HasExactly(ready[n..], touched);
    assert Has(ready[n..], k);
    Laws.SuffixHas(ready, n);
  }

  /** If the tiles of a call fit the budget together, all of them are resident when it returns. */
  lemma FetchedIsResident<V>(s: Store<V>, maxBytes: nat, source: Source<V>, keys: seq<Key>, j: nat)
    requires Valid(s) && OnlyTrueTiles(source, s.ready) && Bytes(s.ready) <= maxBytes && AllDecode(source, keys)
    requires Undisturbed(s, keys) && BytesOf(source, keys) <= maxBytes && j < |keys|
    ensures Valid(Fetched(s, maxBytes, source, keys)) && Has(Fetched(s, maxBytes, source, keys).ready, keys[j])
  {
    var misses := MissesTo(s.ready, keys, |keys|);
    var hits := HitsTo(s.ready, keys, |keys|);
    MissesInRange(s.ready, keys, |keys|);
    ClaimsEffect(s, keys, |keys|);
    ClaimsTouch(s, keys, |keys|);
    PublicationsTouch(source, ClaimTo(s, keys, |keys|), maxBytes, hits, keys, misses, |misses|);
    var touched := hits + KeysTo(keys, misses, |misses|);
    if !Has(s.ready, keys[j]) {
      assert j in misses;
      var l :| 0 <= l < |misses| && misses[l] == j;
      assert keys[misses[l]] in touched;
    }
    RecentHas(Fetched(s, maxBytes, source, keys).ready, touched, keys[j]);
  }

  lemma {:induction false} NoMisses<V>(ready: seq<Entry<V>>, keys: seq<Key>, n: nat)
    requires n <= |keys| && forall j :: 0 <= j < n ==> Has(ready, keys[j])
    ensures MissesTo(ready, keys, n) == []
  {
    if n > 0 {
      NoMisses(ready, keys, n - 1);
    }
  }

  /** A call whose tiles are all resident fetches none: each claim is a hit, and no tile comes or goes. */
  lemma AllResidentIsAllHits<V>(s: Store<V>, maxBytes: nat, source: Source<V>, keys: seq<Key>)
    requires Valid(s) && AllDecode(source, keys) && Undisturbed(s, keys)
    requires forall j :: 0 <= j < |keys| ==> Has(s.ready, keys[j])
    ensures var t := Fetched(s, maxBytes, source, keys);
            && t.hits == s.hits + |keys| && t.misses == s.misses && t.evictions == s.evictions
            && forall k :: Has(t.ready, k) <==> Has(s.ready, k)
  {
    NoMisses(s.ready, keys, |keys|);
    ClaimsEffect(s, keys, |keys|);
  }

  lemma {:induction false} PublicationsCount<V>(s: Store<V>, maxBytes: nat, source: Source<V>, keys: seq<Key>,
                                                indices: seq<nat>, m: nat)
    requires Decodes(source, keys, indices, m)
    ensures var t := PublishTo(s, maxBytes, source, keys, indices, m); t.hits == s.hits && t.misses == s.misses
  {
    if m > 0 {
      PublicationsCount(s, maxBytes, source, keys, indices, m - 1);
    }
  }

  /** A call counts one hit for each of its tiles that was resident and one miss for each other. */
  lemma FetchedCounts<V>(s: Store<V>, maxBytes: nat, source: Source<V>, keys: seq<Key>)
    requires Valid(s) && AllDecode(source, keys) && Undisturbed(s, keys)
    ensures var t, misses := Fetched(s, maxBytes, source, keys), MissesTo(s.ready, keys, |keys|);
            && t.misses == s.misses + |misses| && t.hits == s.hits + |keys| - |misses|
            && forall j :: j in misses <==> 0 <= j < |keys| && !Has(s.ready, keys[j])
  {
    var misses := MissesTo(s.ready, keys, |keys|);
    ClaimsEffect(s, keys, |keys|);
    MissesInRange(s.ready, keys, |keys|);
    PublicationsCount(ClaimTo(s, keys, |keys|), maxBytes, source, keys, misses, |misses|);
  }
}
