/** The tile cache as a value: resident tiles in recency order, and the keys being fetched.
    This is what the class TileCache refines and what concurrent calls share. */
module TileStore {
  import opened Wrappers
  import opened Arrays

  /** (reader, level, tile_x, tile_y) */
  datatype Key = Key(reader: nat, level: nat, x: nat, y: nat)

  /** Identity of a completion signal. */
  type Sig = nat

  datatype Entry<V> = Entry(key: Key, arr: Array<V>)

  /** `ready` is least recently used first; `pending` holds the signal of each key being fetched. */
  datatype Store<V> = Store(
    ready: seq<Entry<V>>,
    pending: map<Key, Sig>,
    nextSig: Sig,
    hits: nat,
    misses: nat,
    evictions: nat)

  datatype Outcome<V> = Hit(arr: Array<V>) | Mine | Busy(sig: Sig)

  ghost predicate Has<V>(ready: seq<Entry<V>>, key: Key) {
    exists i :: 0 <= i < |ready| && ready[i].key == key
  }

  ghost predicate Distinct<V>(ready: seq<Entry<V>>) {
    forall i, j :: 0 <= i < j < |ready| ==> ready[i].key != ready[j].key
  }

  /** The resident tile of `key`. */
  ghost function Find<V>(ready: seq<Entry<V>>, key: Key): (e: Entry<V>)
    requires Has(ready, key)
    ensures e in ready && e.key == key
  {
    var i :| 0 <= i < |ready| && ready[i].key == key;
    ready[i]
  }

  ghost function Without<V>(ready: seq<Entry<V>>, key: Key): seq<Entry<V>> {
    if ready == [] then []
    else if ready[|ready| - 1].key == key then Without(ready[..|ready| - 1], key)
    else Without(ready[..|ready| - 1], key) + [ready[|ready| - 1]]
  }

  ghost function Bytes<V>(ready: seq<Entry<V>>): nat {
    if ready == [] then 0 else ArrayBytes(ready[0].arr) + Bytes(ready[1..])
  }

  /** Drop least recently used tiles until the rest fits the budget. */
  ghost function Shrink<V>(ready: seq<Entry<V>>, maxBytes: nat): (kept: seq<Entry<V>>)
    ensures |kept| <= |ready|
  {
    if Bytes(ready) <= maxBytes then ready else Shrink(ready[1..], maxBytes)
  }

  ghost predicate Valid<V>(s: Store<V>) {
    && Distinct(s.ready)
    && (forall k :: k in s.pending ==> !Has(s.ready, k))
    && (forall k :: k in s.pending ==> s.pending[k] < s.nextSig)
    && (forall k, l :: k in s.pending && l in s.pending && s.pending[k] == s.pending[l] ==> k == l)
  }

  /** One pass of the claim loop under the lock. */
  ghost function TryClaim<V>(s: Store<V>, key: Key): (r: (Store<V>, Outcome<V>)) {
    if Has(s.ready, key) then
      var e := Find(s.ready, key);
      (s.(ready := Without(s.ready, key) + [e], hits := s.hits + 1), Hit(e.arr))
    else if key in s.pending then
      (s, Busy(s.pending[key]))
    else
      (s.(pending := s.pending[key := s.nextSig], nextSig := s.nextSig + 1, misses := s.misses + 1), Mine)
  }

  /** The single-threaded (wasm) claim: a contended key is fetched twice instead of waited for. */
  ghost function TryClaimTwice<V>(s: Store<V>, key: Key): (r: (Store<V>, Outcome<V>)) {
    var (t, o) := TryClaim(s, key);
    if o.Busy? then (t.(misses := t.misses + 1), Mine) else (t, o)
  }

  /** fulfill under the lock: publish, evict, hand over the signal to fire. */
  ghost function Publish<V>(s: Store<V>, maxBytes: nat, key: Key, arr: Array<V>): (r: (Store<V>, Option<Sig>)) {
    var all := Without(s.ready, key) + [Entry(key, arr)];
    var kept := Shrink(all, maxBytes);
    (s.(ready := kept, pending := s.pending - {key}, evictions := s.evictions + (|all| - |kept|)),
     if key in s.pending then Some(s.pending[key]) else None)
  }

  /** abort under the lock: a pending key is given back, anything else is left alone. */
  ghost function Release<V>(s: Store<V>, key: Key): (r: (Store<V>, Option<Sig>)) {
    if key in s.pending then (s.(pending := s.pending - {key}), Some(s.pending[key])) else (s, None)
  }

  /** What stays resident is the longest recent run of tiles that fits: one tile more would not. */
  lemma {:induction false} ShrinkIsLongestFittingSuffix<V>(ready: seq<Entry<V>>, maxBytes: nat)
    ensures var kept := Shrink(ready, maxBytes);
            && |kept| <= |ready|
            && kept == ready[|ready| - |kept|..]
            && Bytes(kept) <= maxBytes
            && forall n :: 0 <= n < |ready| - |kept| ==> Bytes(ready[n..]) > maxBytes
  {
    if Bytes(ready) > maxBytes {
      ShrinkIsLongestFittingSuffix(ready[1..], maxBytes);
      var kept := Shrink(ready[1..], maxBytes);
      forall n | 0 <= n < |ready| - |kept| ensures Bytes(ready[n..]) > maxBytes {
        if n > 0 {
          assert ready[n..] == ready[1..][n - 1..];
        } else {
          assert ready[n..] == ready;
        }
      }
    }
  }

  lemma {:induction false} BytesConcat<V>(a: seq<Entry<V>>, b: seq<Entry<V>>)
    ensures Bytes(a + b) == Bytes(a) + Bytes(b)
  {
    if a == [] {
      assert a + b == b;
    } else {
      assert (a + b)[1..] == a[1..] + b;
      BytesConcat(a[1..], b);
    }
  }

  lemma {:induction false} WithoutMembers<V>(ready: seq<Entry<V>>, key: Key)
    ensures forall e | e in Without(ready, key) :: e in ready && e.key != key
    ensures forall e | e in ready && e.key != key :: e in Without(ready, key)
    ensures |Without(ready, key)| <= |ready|
  {
    if ready != [] {
      WithoutMembers(ready[..|ready| - 1], key);
      assert ready == ready[..|ready| - 1] + [ready[|ready| - 1]];
    }
  }

  /** Removing a resident key takes exactly its entry out of the list. */
  lemma {:induction false} WithoutRemovesOne<V>(ready: seq<Entry<V>>, i: nat)
    requires Distinct(ready) && i < |ready|
    ensures Without(ready, ready[i].key) == ready[..i] + ready[i + 1..]
  {
    var n := |ready| - 1;
    var front := ready[..n];
    if i == n {
      WithoutAbsent(front, ready[i].key);
    } else {
      WithoutRemovesOne(front, i);
      assert front[i].key == ready[i].key;
      assert front[..i] == ready[..i];
      assert front[i + 1..] + [ready[n]] == ready[i + 1..];
      calc {
        Without(ready, ready[i].key);
        (front[..i] + front[i + 1..]) + [ready[n]];
        front[..i] + (front[i + 1..] + [ready[n]]);
      }
    }
  }

  lemma {:induction false} BytesWithout<V>(ready: seq<Entry<V>>, i: nat)
    requires i < |ready|
    ensures Bytes(ready[..i] + ready[i + 1..]) + ArrayBytes(ready[i].arr) == Bytes(ready)
  {
    if i == 0 {
      assert ready[..0] + ready[1..] == ready[1..];
    } else {
      BytesWithout(ready[1..], i - 1);
      assert (ready[..i] + ready[i + 1..])[1..] == ready[1..][..i - 1] + ready[1..][i..];
    }
  }

  lemma {:induction false} WithoutAbsent<V>(ready: seq<Entry<V>>, key: Key)
    requires !Has(ready, key)
    ensures Without(ready, key) == ready
  {
    if ready != [] {
      var n := |ready| - 1;
      assert forall i :: 0 <= i < n ==> ready[..n][i] == ready[i];
      WithoutAbsent(ready[..n], key);
      assert ready == ready[..n] + [ready[n]];
    }
  }
}
