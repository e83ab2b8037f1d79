/** What every store operation keeps, and what any sequence of operations adds up to. */
module TileStoreLaws {
  import opened Wrappers
  import opened Arrays
  import opened TileStore

  /** Misses not accounted for by a resident tile, a pending key or an eviction. */
  ghost function Unaccounted<V>(s: Store<V>): int {
    s.misses - |s.ready| - |s.pending| - s.evictions
  }

  lemma HasAppend<V>(ready: seq<Entry<V>>, e: Entry<V>, key: Key)
    ensures Has(ready + [e], key) <==> Has(ready, key) || e.key == key
  {
    var all := ready + [e];
    if Has(ready, key) {
      var i :| 0 <= i < |ready| && ready[i].key == key;
      assert all[i].key == key;
    }
    assert all[|ready|] == e;
  }

  lemma WithoutHas<V>(ready: seq<Entry<V>>, key: Key, k: Key)
    ensures Has(Without(ready, key), k) <==> Has(ready, k) && k != key
  {
    var r := Without(ready, key);
    WithoutMembers(ready, key);
    if Has(r, k) {
      var i :| 0 <= i < |r| && r[i].key == k;
      assert r[i] in ready;
    }
    if Has(ready, k) && k != key {
      var j :| 0 <= j < |ready| && ready[j].key == k;
      assert ready[j] in r;
    }
  }

  lemma WithoutKeys<V>(ready: seq<Entry<V>>, key: Key)
    requires Distinct(ready)
    ensures Distinct(Without(ready, key))
    ensures |Without(ready, key)| == |ready| - (if Has(ready, key) then 1 else 0)
  {
    if Has(ready, key) {
      var i :| 0 <= i < |ready| && ready[i].key == key;
      WithoutRemovesOne(ready, i);
    } else {
      WithoutAbsent(ready, key);
    }
  }

  /** Moving or inserting `e` to the most recent place. */
  lemma MoveToBack<V>(ready: seq<Entry<V>>, e: Entry<V>)
    requires Distinct(ready)
    ensures var all := Without(ready, e.key) + [e];
            && Distinct(all)
            && (forall k :: Has(all, k) <==> Has(ready, k) || k == e.key)
            && |all| == |ready| + (if Has(ready, e.key) then 0 else 1)
            && (e in ready ==> Bytes(all) == Bytes(ready))
  {
    var rest := Without(ready, e.key);
    WithoutKeys(ready, e.key);
    WithoutMembers(ready, e.key);
    forall k ensures Has(rest + [e], k) <==> Has(ready, k) || k == e.key {
      WithoutHas(ready, e.key, k);
      HasAppend(rest, e, k);
    }
    WithoutHas(ready, e.key, e.key);
    if e in ready {
      var i :| 0 <= i < |ready| && ready[i] == e;
      WithoutRemovesOne(ready, i);
      BytesWithout(ready, i);
      BytesConcat(rest, [e]);
      assert Bytes([e]) == ArrayBytes(e.arr) + Bytes<V>([]);
    }
    forall i, j | 0 <= i < j < |rest + [e]| ensures (rest + [e])[i].key != (rest + [e])[j].key {
      if j == |rest| {
        assert rest[i].key != e.key;
      }
    }
  }

  lemma HitMoves<V>(s: Store<V>, key: Key, t: Store<V>, e: Entry<V>)
    requires Valid(s) && e in s.ready && e.key == key && t.ready == Without(s.ready, key) + [e]
    requires t.pending == s.pending && t.nextSig == s.nextSig
    ensures Valid(t) && |t.ready| == |s.ready| && Bytes(t.ready) == Bytes(s.ready)
    ensures forall k :: Has(t.ready, k) <==> Has(s.ready, k)
    ensures forall x | x in t.ready :: x in s.ready
  {
    MoveToBack(s.ready, e);
    WithoutMembers(s.ready, key);
    assert Has(s.ready, key);
  }

  /** `after` is `ready` with entry e taken from its place and put at the recent end. */
  ghost predicate MovedLast<V>(ready: seq<Entry<V>>, e: Entry<V>, after: seq<Entry<V>>) {
    exists i :: 0 <= i < |ready| && ready[i] == e && after == ready[..i] + ready[i + 1..] + [e]
  }

  /** A claim under the lock: exactly one of hit, busy and mine, each with its whole effect. */
  lemma TryClaimEffect<V>(s: Store<V>, key: Key)
    requires Valid(s)
    ensures var (t, o) := TryClaim(s, key);
            && Valid(t)
            && (o.Hit? <==> Has(s.ready, key))
            && (o.Busy? <==> key in s.pending)
            && (forall k :: Has(t.ready, k) <==> Has(s.ready, k))
            && (forall e | e in t.ready :: e in s.ready)
            && Bytes(t.ready) == Bytes(s.ready)
            && (o.Hit? ==>
                  && Entry(key, o.arr) in s.ready && MovedLast(s.ready, Entry(key, o.arr), t.ready)
                  && t == s.(ready := t.ready, hits := s.hits + 1))
            && (o.Busy? ==> t == s && o.sig == s.pending[key])
            && (o.Mine? ==>
                  t == s.(pending := s.pending[key := s.nextSig], nextSig := s.nextSig + 1, misses := s.misses + 1))
            && Unaccounted(t) == Unaccounted(s)
  {
    if Has(s.ready, key) {
      var e := Find(s.ready, key);
      HitMoves(s, key, TryClaim(s, key).0, e);
      var i :| 0 <= i < |s.ready| && s.ready[i] == e;
      WithoutRemovesOne(s.ready, i);
    }
  }

  lemma SuffixHas<V>(all: seq<Entry<V>>, n: nat)
    requires n <= |all|
    ensures forall k :: Has(all[n..], k) ==> Has(all, k)
    ensures Distinct(all) ==> Distinct(all[n..])
  {
    forall k | Has(all[n..], k) ensures Has(all, k) {
      var i :| 0 <= i < |all[n..]| && all[n..][i].key == k;
      assert all[n + i].key == k;
    }
  }

  lemma ReadyAfterPublish<V>(ready: seq<Entry<V>>, maxBytes: nat, e: Entry<V>, all: seq<Entry<V>>, kept: seq<Entry<V>>)
    requires Distinct(ready) && all == Without(ready, e.key) + [e] && kept == Shrink(all, maxBytes)
    ensures Distinct(kept) && Bytes(kept) <= maxBytes
    ensures forall k :: Has(kept, k) ==> Has(ready, k) || k == e.key
    ensures forall x | x in kept :: x in ready || x == e
    ensures |all| == |ready| + (if Has(ready, e.key) then 0 else 1)
  {
    MoveToBack(ready, e);
    WithoutMembers(ready, e.key);
    ShrinkIsLongestFittingSuffix(all, maxBytes);
    SuffixHas(all, |all| - |kept|);
  }

  /** `kept` ends `all`, fits the budget, and a longer end of `all` would not. */
  ghost predicate LongestRunWithin<V>(all: seq<Entry<V>>, kept: seq<Entry<V>>, maxBytes: nat) {
    && |kept| <= |all| && kept == all[|all| - |kept|..] && Bytes(kept) <= maxBytes
    && forall n :: 0 <= n < |all| - |kept| ==> Bytes(all[n..]) > maxBytes
  }

  /** `others` is `ready` less the entry of `key`. */
  ghost predicate Lacks<V>(ready: seq<Entry<V>>, key: Key, others: seq<Entry<V>>) {
    exists i :: 0 <= i < |ready| && ready[i].key == key && others == ready[..i] + ready[i + 1..]
  }

  /** What a publication keeps: within budget, only this key stops being pending, only resident tiles and this one are
      resident, and its miss stays accounted for. */
  lemma PublishKeeps<V>(s: Store<V>, maxBytes: nat, key: Key, arr: Array<V>)
    requires Valid(s)
    ensures var (t, sig) := Publish(s, maxBytes, key, arr);
            && Valid(t)
            && Bytes(t.ready) <= maxBytes
            && t.pending == s.pending - {key}
            && t.nextSig == s.nextSig && t.misses == s.misses
            && sig == (if key in s.pending then Some(s.pending[key]) else None)
            && (forall k :: Has(t.ready, k) ==> Has(s.ready, k) || k == key)
            && (forall e | e in t.ready :: e in s.ready || e == Entry(key, arr))
            && Unaccounted(t) == Unaccounted(s) - (if Has(s.ready, key) || key in s.pending then 0 else 1)
  {
    var all := Without(s.ready, key) + [Entry(key, arr)];
    ReadyAfterPublish(s.ready, maxBytes, Entry(key, arr), all, Shrink(all, maxBytes));
    RemoveKeySize(s.pending, key);
  }

  /** Publishing: the tile goes to the recent end in place of an older one of its key, and of the list so made the
      longest recent run that fits the budget stays; what is cut off are the evictions. Only this key stops being
      pending, its signal is handed over, and nothing else changes. */
  lemma PublishEffect<V>(s: Store<V>, maxBytes: nat, key: Key, arr: Array<V>, others: seq<Entry<V>>)
    requires Valid(s)
    requires if Has(s.ready, key) then Lacks(s.ready, key, others) else others == s.ready
    ensures var (t, sig) := Publish(s, maxBytes, key, arr);
            && LongestRunWithin(others + [Entry(key, arr)], t.ready, maxBytes)
            && t == s.(ready := t.ready, pending := s.pending - {key},
                       evictions := s.evictions + |others| + 1 - |t.ready|)
            && sig == (if key in s.pending then Some(s.pending[key]) else None)
  {
    OthersAre(s.ready, key, others);
    ShrinkIsLongestFittingSuffix(others + [Entry(key, arr)], maxBytes);
  }

  lemma OthersAre<V>(ready: seq<Entry<V>>, key: Key, others: seq<Entry<V>>)
    requires Distinct(ready)
    requires if Has(ready, key) then Lacks(ready, key, others) else others == ready
    ensures Without(ready, key) == others
  {
    if Has(ready, key) {
      var i :| 0 <= i < |ready| && ready[i].key == key && others == ready[..i] + ready[i + 1..];
      WithoutRemovesOne(ready, i);
    } else {
      WithoutAbsent(ready, key);
    }
  }

  lemma LastBytes<V>(all: seq<Entry<V>>)
    requires all != []
    ensures Bytes(all[|all| - 1..]) == ArrayBytes(all[|all| - 1].arr)
    ensures Bytes(all) >= ArrayBytes(all[|all| - 1].arr)
  {
    var n := |all| - 1;
    assert all == all[..n] + all[n..];
    BytesConcat(all[..n], all[n..]);
    assert Bytes(all[n..]) == ArrayBytes(all[n].arr) + Bytes(all[n..][1..]);
  }

  /** The longest run within budget has the last entry iff that entry fits by itself; else nothing stays. */
  lemma LastStaysIffItFits<V>(all: seq<Entry<V>>, kept: seq<Entry<V>>, maxBytes: nat)
    requires all != [] && LongestRunWithin(all, kept, maxBytes)
    ensures if ArrayBytes(all[|all| - 1].arr) <= maxBytes then kept != [] && kept[|kept| - 1] == all[|all| - 1]
            else kept == []
  {
    LastBytes(all);
    if kept == [] {
      assert Bytes(all[|all| - 1..]) > maxBytes;
    } else {
      LastBytes(kept);
    }
  }

  /** A published tile that fits the budget is the most recent one, and the next claim of its key hits it and changes
      nothing but the count. One that does not fit by itself leaves the cache empty, and its key is granted again. */
  lemma PublishedIsHitIff<V>(s: Store<V>, maxBytes: nat, key: Key, arr: Array<V>)
    requires Valid(s)
    ensures var t := Publish(s, maxBytes, key, arr).0;
            if ArrayBytes(arr) <= maxBytes then
              && t.ready != [] && t.ready[|t.ready| - 1] == Entry(key, arr)
              && TryClaim(t, key) == (t.(hits := t.hits + 1), Hit(arr))
            else t.ready == [] && TryClaim(t, key).1 == Mine
  {
    var t, all := Publish(s, maxBytes, key, arr).0, Without(s.ready, key) + [Entry(key, arr)];
    PublishKeeps(s, maxBytes, key, arr);
    ShrinkIsLongestFittingSuffix(all, maxBytes);
    LastStaysIffItFits(all, t.ready, maxBytes);
    if ArrayBytes(arr) <= maxBytes {
      NewestIsHit(t, key, arr);
    }
  }

  /** A claim of the most recent tile leaves the list as it is. */
  lemma NewestIsHit<V>(t: Store<V>, key: Key, arr: Array<V>)
    requires Distinct(t.ready) && t.ready != [] && t.ready[|t.ready| - 1] == Entry(key, arr)
    ensures TryClaim(t, key) == (t.(hits := t.hits + 1), Hit(arr))
  {
    var n := |t.ready| - 1;
    assert t.ready[n].key == key;
    WithoutRemovesOne(t.ready, n);
    assert t.ready[..n] + t.ready[n + 1..] + [t.ready[n]] == t.ready;
    assert Find(t.ready, key) == t.ready[n];
  }

  lemma RemoveKeySize<X, Y>(m: map<X, Y>, x: X)
    ensures |m - {x}| == |m| - (if x in m then 1 else 0)
  {
    assert (m - {x}).Keys == m.Keys - {x};
    assert |m - {x}| == |(m - {x}).Keys|;
  }

  /** Aborting gives a pending key back; on any other key it is the identity. */
  lemma ReleaseEffect<V>(s: Store<V>, key: Key)
    requires Valid(s)
    ensures var (t, sig) := Release(s, key);
            && Valid(t) && t == s.(pending := s.pending - {key})
            && sig == (if key in s.pending then Some(s.pending[key]) else None)
            && (key !in s.pending ==> t == s)
            && Unaccounted(t) == Unaccounted(s) + (if key in s.pending then 1 else 0)
  {
    RemoveKeySize(s.pending, key);
    if key !in s.pending {
      assert s.pending - {key} == s.pending;
    }
  }

  /** Any call a client can make, in any order, including duplicates and late aborts. */
  datatype Op<V> = Claim(key: Key) | ClaimTwice(key: Key) | Fulfill(key: Key, arr: Array<V>) | Abort(key: Key)

  ghost function Apply<V>(s: Store<V>, maxBytes: nat, op: Op<V>): Store<V> {
    match op
    case Claim(k) => TryClaim(s, k).0
    case ClaimTwice(k) => TryClaimTwice(s, k).0
    case Fulfill(k, a) => Publish(s, maxBytes, k, a).0
    case Abort(k) => Release(s, k).0
  }

  ghost function ApplyAll<V>(s: Store<V>, maxBytes: nat, ops: seq<Op<V>>): Store<V> {
    if ops == [] then s
    else Apply(ApplyAll(s, maxBytes, ops[..|ops| - 1]), maxBytes, ops[|ops| - 1])
  }

  /** How one call moves the balance of misses against tiles, pending keys and evictions. */
  ghost function Imbalance<V>(s: Store<V>, op: Op<V>): int {
    match op
    case Claim(_) => 0
    case ClaimTwice(k) => if !Has(s.ready, k) && k in s.pending then 1 else 0
    case Fulfill(k, _) => if Has(s.ready, k) || k in s.pending then 0 else -1
    case Abort(k) => if k in s.pending then 1 else 0
  }

  ghost function TotalImbalance<V>(s: Store<V>, maxBytes: nat, ops: seq<Op<V>>): int {
    if ops == [] then 0
    else
      var before := ops[..|ops| - 1];
      TotalImbalance(s, maxBytes, before) + Imbalance(ApplyAll(s, maxBytes, before), ops[|ops| - 1])
  }

  lemma ApplyEffect<V>(s: Store<V>, maxBytes: nat, op: Op<V>)
    requires Valid(s) && Bytes(s.ready) <= maxBytes
    ensures var t := Apply(s, maxBytes, op);
            && Valid(t)
            && Bytes(t.ready) <= maxBytes
            && Unaccounted(t) == Unaccounted(s) + Imbalance(s, op)
  {
    match op
    case Claim(k) => TryClaimEffect(s, k);
    case ClaimTwice(k) => TryClaimTwiceEffect(s, k);
    case Fulfill(k, a) => PublishKeeps(s, maxBytes, k, a);
    case Abort(k) => ReleaseEffect(s, k);
  }

  /** The single-threaded claim: a key being fetched is one more miss and granted again, any other as before. */
  lemma TryClaimTwiceEffect<V>(s: Store<V>, key: Key)
    requires Valid(s)
    ensures var (t, o) := TryClaimTwice(s, key);
            && Valid(t) && !o.Busy? && Bytes(t.ready) == Bytes(s.ready)
            && (if !Has(s.ready, key) && key in s.pending then t == s.(misses := s.misses + 1) && o.Mine?
                else (t, o) == TryClaim(s, key))
            && Unaccounted(t) == Unaccounted(s) + (if !Has(s.ready, key) && key in s.pending then 1 else 0)
  {
    TryClaimEffect(s, key);
  }

  /** Over every sequence of calls the budget holds and every miss is a resident tile, a pending key,
      an eviction, an abort of a pending key or a duplicate claim, less tiles published unclaimed. */
  lemma {:induction false} EverySequenceBalances<V>(s: Store<V>, maxBytes: nat, ops: seq<Op<V>>)
    requires Valid(s) && Bytes(s.ready) <= maxBytes
    ensures var t := ApplyAll(s, maxBytes, ops);
            && Valid(t)
            && Bytes(t.ready) <= maxBytes
            && Unaccounted(t) == Unaccounted(s) + TotalImbalance(s, maxBytes, ops)
  {
    if ops != [] {
      var before := ops[..|ops| - 1];
      EverySequenceBalances(s, maxBytes, before);
      ApplyEffect(ApplyAll(s, maxBytes, before), maxBytes, ops[|ops| - 1]);
    }
  }
}
