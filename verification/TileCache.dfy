/** The byte-bounded tile cache: a hash map of slots stamped with ticks, evicted by a scan for the
    smallest stamp. Its abstract value is a TileStore whose recency list the ticks encode. */
module TileCache {
  import opened Wrappers
  import opened Arrays
  import opened TileStore
  import Laws = TileStoreLaws

  datatype Slot<V> =
    | Ready(arr: Array<V>, bytes: nat, lastUsed: nat)
    | Pending(sig: Sig)

  datatype Stats = Stats(hits: nat, misses: nat, evictions: nat, bytes: nat, maxBytes: nat)

  /** Slot of a resident entry, stamped no later than `tick`. */
  ghost predicate Holds<V>(slots: map<Key, Slot<V>>, e: Entry<V>, tick: nat) {
    && e.key in slots
    && slots[e.key].Ready?
    && slots[e.key].arr == e.arr
    && slots[e.key].bytes == ArrayBytes(e.arr)
    && slots[e.key].lastUsed <= tick
  }

  /** The i-th entry was used before the j-th. */
  ghost predicate Older<V>(slots: map<Key, Slot<V>>, recency: seq<Entry<V>>, i: nat, j: nat)
    requires i < |recency| && j < |recency|
  {
    && recency[i].key in slots && slots[recency[i].key].Ready?
    && recency[j].key in slots && slots[recency[j].key].Ready?
    && slots[recency[i].key].lastUsed < slots[recency[j].key].lastUsed
  }

  /** The stamps are distinct and grow along `recency`. */
  ghost predicate Stamped<V>(slots: map<Key, Slot<V>>, recency: seq<Entry<V>>, tick: nat) {
    && (forall i {:trigger Holds(slots, recency[i], tick)} :: 0 <= i < |recency| ==> Holds(slots, recency[i], tick))
    && (forall i, j {:trigger Older(slots, recency, i, j)} :: 0 <= i < j < |recency| ==> Older(slots, recency, i, j))
  }

  /** `recency` lists exactly the resident slots, in the order of their stamps. */
  ghost predicate Tracks<V>(slots: map<Key, Slot<V>>, recency: seq<Entry<V>>, tick: nat) {
    && Stamped(slots, recency, tick)
    && (forall k {:trigger Has(recency, k)} :: k in slots && slots[k].Ready? ==> Has(recency, k))
  }

  ghost function PendingOf<V>(slots: map<Key, Slot<V>>): map<Key, Sig> {
    map k | k in slots && slots[k].Pending? :: slots[k].sig
  }

  /** Pending signals are distinct, handed out before, and not fired yet. */
  ghost predicate SignalsOpen(pending: map<Key, Sig>, nextSig: Sig, fired: set<Sig>) {
    && (forall k :: k in pending ==> pending[k] < nextSig && pending[k] !in fired)
    && (forall k, l :: k in pending && l in pending && pending[k] == pending[l] ==> k == l)
    && (forall s :: s in fired ==> s < nextSig)
  }

  /** The invariant of the cache's fields. */
  ghost predicate Consistent<V>(slots: map<Key, Slot<V>>, used: int, tick: nat, nextSig: Sig, fired: set<Sig>,
                                recency: seq<Entry<V>>, maxBytes: nat)
  {
    && Tracks(slots, recency, tick)
    && used == Bytes(recency) <= maxBytes
    && SignalsOpen(PendingOf(slots), nextSig, fired)
  }

  /** The resident slot with the smallest stamp: the scan of the eviction loop. */
  method OldestReady<V>(slots: map<Key, Slot<V>>) returns (victim: Option<Key>)
    ensures victim.None? <==> forall k :: k in slots ==> slots[k].Pending?
    ensures victim.Some? ==> victim.value in slots && slots[victim.value].Ready?
    ensures victim.Some? ==> forall k :: k in slots && slots[k].Ready? ==>
              slots[victim.value].lastUsed <= slots[k].lastUsed
  {
    victim := None;
    var rest := slots.Keys;
    while rest != {}
      invariant rest <= slots.Keys
      invariant victim.None? ==> forall k :: k in slots.Keys - rest ==> slots[k].Pending?
      invariant victim.Some? ==> victim.value in slots && slots[victim.value].Ready?
      invariant victim.Some? ==> forall k :: k in slots.Keys - rest && slots[k].Ready? ==>
                 slots[victim.value].lastUsed <= slots[k].lastUsed
      decreases rest
    {
      var k :| k in rest;
      if slots[k].Ready? && (victim.None? || slots[k].lastUsed < slots[victim.value].lastUsed) {
        victim := Some(k);
      }
      rest := rest - {k};
    }
  }

  /** The smallest stamp belongs to the head of the recency list. */
  lemma OldestIsHead<V>(slots: map<Key, Slot<V>>, recency: seq<Entry<V>>, tick: nat, victim: Key)
    requires Tracks(slots, recency, tick)
    requires victim in slots && slots[victim].Ready?
    requires forall k :: k in slots && slots[k].Ready? ==> slots[victim].lastUsed <= slots[k].lastUsed
    ensures recency != [] && recency[0].key == victim
    ensures slots[victim].bytes == ArrayBytes(recency[0].arr)
    ensures Tracks(slots - {victim}, recency[1..], tick)
    ensures PendingOf(slots - {victim}) == PendingOf(slots)
  {
    assert Has(recency, victim);
    var i :| 0 <= i < |recency| && recency[i].key == victim;
    assert Holds(slots, recency[0], tick);
    assert i > 0 ==> Older(slots, recency, 0, i);
    var fewer := slots - {victim};
    forall j | 0 <= j < |recency[1..]| ensures Holds(fewer, recency[1..][j], tick) {
      assert Holds(slots, recency[j + 1], tick);
      assert Older(slots, recency, 0, j + 1);
    }
    forall j, l | 0 <= j < l < |recency[1..]| ensures Older(fewer, recency[1..], j, l) {
      assert Older(slots, recency, j + 1, l + 1) && Older(slots, recency, 0, j + 1) && Older(slots, recency, 0, l + 1);
    }
    forall k | k in fewer && fewer[k].Ready? ensures Has(recency[1..], k) {
      assert Has(recency, k);
      var j :| 0 <= j < |recency| && recency[j].key == k;
      assert recency[1..][j - 1].key == k;
    }
  }

  /** Stamping a slot with a fresh tick moves its tile to the recent end of the list. */
  lemma StampMovesToBack<V>(slots: map<Key, Slot<V>>, recency: seq<Entry<V>>, tick: nat, e: Entry<V>)
    requires Tracks(slots, recency, tick)
    ensures var stamped := slots[e.key := Ready(e.arr, ArrayBytes(e.arr), tick + 1)];
            && Tracks(stamped, Without(recency, e.key) + [e], tick + 1)
            && PendingOf(stamped) == PendingOf(slots) - {e.key}
  {
    var stamped := slots[e.key := Ready(e.arr, ArrayBytes(e.arr), tick + 1)];
    var rest := Without(recency, e.key);
    WithoutStamped(slots, recency, tick, e.key);
    StampLast(slots, rest, tick, e);
    forall k | k in stamped && stamped[k].Ready? ensures Has(rest + [e], k) {
      Laws.HasAppend(rest, e, k);
      Laws.WithoutHas(recency, e.key, k);
    }
  }

  lemma StampLast<V>(slots: map<Key, Slot<V>>, rest: seq<Entry<V>>, tick: nat, e: Entry<V>)
    requires Stamped(slots, rest, tick)
    requires forall i :: 0 <= i < |rest| ==> rest[i].key != e.key
    ensures Stamped(slots[e.key := Ready(e.arr, ArrayBytes(e.arr), tick + 1)], rest + [e], tick + 1)
  {
    var stamped := slots[e.key := Ready(e.arr, ArrayBytes(e.arr), tick + 1)];
    var all := rest + [e];
    forall i | 0 <= i < |all| ensures Holds(stamped, all[i], tick + 1) {
      if i < |rest| {
        assert Holds(slots, rest[i], tick);
      }
    }
    forall i, j | 0 <= i < j < |all| ensures Older(stamped, all, i, j) {
      assert Holds(slots, rest[i], tick);
      if j < |rest| {
        assert Older(slots, rest, i, j);
      }
    }
  }

  lemma {:induction false} WithoutStamped<V>(slots: map<Key, Slot<V>>, recency: seq<Entry<V>>, tick: nat, key: Key)
    requires Stamped(slots, recency, tick)
    ensures Stamped(slots, Without(recency, key), tick)
    ensures forall i :: 0 <= i < |Without(recency, key)| ==> Without(recency, key)[i].key != key
  {
    if recency != [] {
      var n := |recency| - 1;
      var front, last := recency[..n], recency[n];
      forall i | 0 <= i < n ensures Holds(slots, front[i], tick) {
        assert Holds(slots, recency[i], tick);
      }
      forall i, j | 0 <= i < j < n ensures Older(slots, front, i, j) {
        assert Older(slots, recency, i, j);
      }
      WithoutStamped(slots, front, tick, key);
      WithoutMembers(front, key);
      var rest := Without(front, key);
      if last.key != key {
        assert Holds(slots, last, tick);
        var all := rest + [last];
        forall i | 0 <= i < |all| ensures Holds(slots, all[i], tick) && all[i].key != key {
          if i < |rest| {
            assert Holds(slots, rest[i], tick);
          }
        }
        forall i, j | 0 <= i < j < |all| ensures Older(slots, all, i, j) {
          assert Holds(slots, rest[i], tick);
          if j < |rest| {
            assert Older(slots, rest, i, j);
          } else {
            assert rest[i] in front;
            var m :| 0 <= m < n && recency[m] == rest[i];
            assert Older(slots, recency, m, n);
          }
        }
      }
    }
  }

  lemma TracksDistinct<V>(slots: map<Key, Slot<V>>, recency: seq<Entry<V>>, tick: nat)
    requires Tracks(slots, recency, tick)
    ensures Distinct(recency)
  {
    forall i, j | 0 <= i < j < |recency| ensures recency[i].key != recency[j].key {
      assert Older(slots, recency, i, j);
    }
  }

  lemma TracksFind<V>(slots: map<Key, Slot<V>>, recency: seq<Entry<V>>, tick: nat, key: Key)
    requires Tracks(slots, recency, tick)
    ensures Has(recency, key) <==> key in slots && slots[key].Ready?
    ensures Has(recency, key) ==>
              Find(recency, key) == Entry(key, slots[key].arr) && slots[key].bytes == ArrayBytes(slots[key].arr)
  {
    if Has(recency, key) {
      var e := Find(recency, key);
      var i :| 0 <= i < |recency| && recency[i] == e;
      assert Holds(slots, recency[i], tick);
    }
  }

  class TileCache<V> {
    const maxBytes: nat
    var slots: map<Key, Slot<V>>
    var used: nat
    var tick: nat
    var hits: nat
    var misses: nat
    var evictions: nat
    var nextReader: nat
    var nextSig: Sig
    /** Signals already fired. */
    var fired: set<Sig>
    /** Resident tiles, least recently used first. */
    ghost var recency: seq<Entry<V>>

    ghost predicate Valid()
      reads this
    {
      Consistent(slots, used, tick, nextSig, fired, recency, maxBytes)
    }

    ghost function View(): Store<V>
      reads this
    {
      Store(recency, PendingOf(slots), nextSig, hits, misses, evictions)
    }

    lemma ViewIsValid()
      requires Valid()
      ensures TileStore.Valid(View())
    {
      TracksDistinct(slots, recency, tick);
      forall k | k in View().pending ensures !Has(recency, k) {
        TracksFind(slots, recency, tick, k);
      }
    }

    constructor (maxBytes: nat)
      ensures Valid() && this.maxBytes == maxBytes && fired == {}
      ensures View() == Store([], map[], 0, 0, 0, 0)
    {
      this.maxBytes := maxBytes;
      slots, used, tick, hits, misses, evictions := map[], 0, 0, 0, 0, 0;
      nextReader, nextSig, fired, recency := 0, 0, {}, [];
    }

    /** A reader id never handed out before. */
    method Register() returns (id: nat)
      requires Valid()
      modifies this`nextReader
      ensures Valid() && View() == old(View())
      ensures id == old(nextReader) && nextReader == old(nextReader) + 1
    {
      id := nextReader;
      nextReader := nextReader + 1;
    }

    method GetStats() returns (s: Stats)
      requires Valid()
      ensures s == Stats(View().hits, View().misses, View().evictions, Bytes(View().ready), maxBytes)
      ensures s.bytes <= s.maxBytes
    {
      s := Stats(hits, misses, evictions, used, maxBytes);
    }

    /** A hit: the slot gets the current tick. */
    method Touch(key: Key) returns (arr: Array<V>)
      requires Valid() && key in slots && slots[key].Ready?
      modifies this`slots, this`tick, this`hits, this`recency
      ensures Valid() && (View(), Hit(arr)) == TryClaim(old(View()), key)
    {
      HitRefines(slots, used, tick, View(), fired, maxBytes, key);
      tick := tick + 1;
      arr := slots[key].arr;
      slots := slots[key := slots[key].(lastUsed := tick)];
      recency := Without(recency, key) + [Entry(key, arr)];
      hits := hits + 1;
    }

    /** A miss: the key is pending under a new signal. */
    method Open(key: Key)
      requires Valid() && key !in slots
      modifies this`slots, this`tick, this`misses, this`nextSig
      ensures Valid() && (View(), Mine) == TryClaim(old(View()), key)
    {
      MineRefines(slots, used, tick, View(), fired, maxBytes, key);
      tick := tick + 1;
      slots := slots[key := Pending(nextSig)];
      nextSig := nextSig + 1;
      misses := misses + 1;
    }

    /** One pass of the claim loop under the lock; `Busy` is the signal the caller then waits on. */
    method TryClaimOne(key: Key) returns (o: Outcome<V>)
      requires Valid()
      modifies this
      ensures Valid() && fired == old(fired) && nextReader == old(nextReader)
      ensures (View(), o) == TryClaim(old(View()), key)
    {
      if key !in slots {
        Open(key);
        return Mine;
      }
      match slots[key]
      case Ready(_, _, _) =>
        var arr := Touch(key);
        o := Hit(arr);
      case Pending(sig) =>
        BusyRefines(slots, used, tick, View(), fired, maxBytes, key);
        tick := tick + 1;
        o := Busy(sig);
    }

    /** The pass of the single-threaded build, where nobody can wait: a key being fetched is counted as a miss and
        granted once more. */
    method ClaimTwice(key: Key) returns (o: Outcome<V>)
      requires Valid()
      modifies this
      ensures Valid() && fired == old(fired) && nextReader == old(nextReader) && !o.Busy?
      ensures (View(), o) == TryClaimTwice(old(View()), key)
    {
      o := TryClaimOne(key);
      if o.Busy? {
        misses := misses + 1;
        o := Mine;
      }
    }

    /** The tile goes into its slot with the current tick; the bytes of a tile it replaces are taken back. */
    method Put(key: Key, arr: Array<V>) returns (prev: Option<Slot<V>>)
      requires Valid()
      modifies this`slots, this`used, this`tick, this`recency
      ensures Tracks(slots, recency, tick) && used == Bytes(recency)
      ensures recency == Without(old(recency), key) + [Entry(key, arr)]
      ensures PendingOf(slots) == old(PendingOf(slots)) - {key}
      ensures prev == if key in old(slots) then Some(old(slots)[key]) else None
    {
      ReplaceBytes(slots, recency, tick, Entry(key, arr));
      StampMovesToBack(slots, recency, tick, Entry(key, arr));
      var bytes := ArrayBytes(arr);
      tick := tick + 1;
      prev := if key in slots then Some(slots[key]) else None;
      slots := slots[key := Ready(arr, bytes, tick)];
      used := used + bytes;
      if prev.Some? && prev.value.Ready? {
        used := used - prev.value.bytes;
      }
      recency := Without(recency, key) + [Entry(key, arr)];
    }

    /** fulfill: publish the tile, evict least recently used tiles over budget, fire the signal. */
    method Fulfill(key: Key, arr: Array<V>)
      requires Valid()
      modifies this
      ensures Valid() && nextReader == old(nextReader)
      ensures View() == Publish(old(View()), maxBytes, key, arr).0
      ensures if ArrayBytes(arr) <= maxBytes then key in slots && slots[key].Ready? && slots[key].arr == arr
              else forall k :: k in slots ==> slots[k].Pending?
      ensures fired == old(fired) + (if key in old(View()).pending then {old(View()).pending[key]} else {})
    {
      FireSignal(PendingOf(slots), nextSig, fired, key);
      var prev := Put(key, arr);
      EvictOverBudget(recency);
      KeptIffItFits(slots, old(recency), recency, tick, maxBytes, Entry(key, arr));
      if prev.Some? && prev.value.Pending? {
        fired := fired + {prev.value.sig};
      }
    }

    /** The eviction loop of fulfill: least recently used tiles go until the budget fits. The branch
        without a victim is never taken: bytes over budget mean a resident slot. */
    method EvictOverBudget(ghost all: seq<Entry<V>>)
      requires Tracks(slots, recency, tick) && used == Bytes(recency) && recency == all
      modifies this`slots, this`used, this`evictions, this`recency
      ensures Tracks(slots, recency, tick) && used == Bytes(recency) <= maxBytes
      ensures PendingOf(slots) == old(PendingOf(slots))
      ensures recency == Shrink(all, maxBytes)
      ensures evictions == old(evictions) + (|all| - |recency|)
    {
      while used > maxBytes
        invariant Tracks(slots, recency, tick) && used == Bytes(recency)
        invariant PendingOf(slots) == old(PendingOf(slots))
        invariant |recency| <= |all| && Shrink(recency, maxBytes) == Shrink(all, maxBytes)
        invariant evictions == old(evictions) + (|all| - |recency|)
        decreases |recency|
      {
        assert Holds(slots, recency[0], tick);
        var victim := OldestReady(slots);
        if victim.None? {
          assert false;
        }
        OldestIsHead(slots, recency, tick, victim.value);
        used := used - slots[victim.value].bytes;
        slots := slots - {victim.value};
        recency := recency[1..];
        evictions := evictions + 1;
      }
    }

    /** abort: give a pending key back and fire its signal; a settled key is left as it is. */
    method Abort(key: Key)
      requires Valid()
      modifies this
      ensures Valid() && nextReader == old(nextReader) && slots.Keys <= old(slots.Keys)
      ensures View() == Release(old(View()), key).0
      ensures fired == old(fired) + (if key in old(View()).pending then {old(View()).pending[key]} else {})
    {
      if key in slots {
        match slots[key]
        case Pending(sig) =>
          RemovePending(slots, recency, tick, key);
          FireSignal(PendingOf(slots), nextSig, fired, key);
          slots := slots - {key};
          fired := fired + {sig};
        case Ready(_, _, _) =>
      }
    }
  }

  /** After eviction the slot of a tile that fits by itself still holds it; with one that does not nothing is
      resident. */
  lemma KeptIffItFits<V>(slots: map<Key, Slot<V>>, before: seq<Entry<V>>, after: seq<Entry<V>>, tick: nat,
                         maxBytes: nat, e: Entry<V>)
    requires Tracks(slots, after, tick) && after == Shrink(Without(before, e.key) + [e], maxBytes)
    ensures if ArrayBytes(e.arr) <= maxBytes then e.key in slots && slots[e.key].Ready? && slots[e.key].arr == e.arr
            else forall k :: k in slots ==> slots[k].Pending?
  {
    ShrinkIsLongestFittingSuffix(Without(before, e.key) + [e], maxBytes);
    Laws.LastStaysIffItFits(Without(before, e.key) + [e], after, maxBytes);
    if ArrayBytes(e.arr) <= maxBytes {
      assert Holds(slots, after[|after| - 1], tick);
    } else {
      forall k | k in slots ensures slots[k].Pending? {
        assert !Has(after, k);
      }
    }
  }

  lemma OpenSignal(pending: map<Key, Sig>, nextSig: Sig, fired: set<Sig>, key: Key)
    requires SignalsOpen(pending, nextSig, fired) && key !in pending
    ensures SignalsOpen(pending[key := nextSig], nextSig + 1, fired)
  {
  }

  lemma FireSignal(pending: map<Key, Sig>, nextSig: Sig, fired: set<Sig>, key: Key)
    requires SignalsOpen(pending, nextSig, fired)
    ensures SignalsOpen(pending - {key}, nextSig, fired + (if key in pending then {pending[key]} else {}))
  {
    if key in pending {
      forall k | k in pending && k != key ensures pending[k] != pending[key] {
      }
    }
  }

  lemma HitRefines<V>(slots: map<Key, Slot<V>>, used: int, tick: nat, s: Store<V>, fired: set<Sig>, maxBytes: nat,
                      key: Key)
    requires s.pending == PendingOf(slots) && Consistent(slots, used, tick, s.nextSig, fired, s.ready, maxBytes)
    requires key in slots && slots[key].Ready?
    ensures var e := Entry(key, slots[key].arr);
            var stamped := slots[key := slots[key].(lastUsed := tick + 1)];
            var moved := Without(s.ready, key) + [e];
            && Consistent(stamped, used, tick + 1, s.nextSig, fired, moved, maxBytes)
            && PendingOf(stamped) == s.pending
            && TryClaim(s, key) == (s.(ready := moved, hits := s.hits + 1), Hit(e.arr))
  {
    var e := Entry(key, slots[key].arr);
    TracksFind(slots, s.ready, tick, key);
    TracksDistinct(slots, s.ready, tick);
    StampMovesToBack(slots, s.ready, tick, e);
    Laws.MoveToBack(s.ready, e);
    assert PendingOf(slots) - {key} == PendingOf(slots);
  }

  lemma BusyRefines<V>(slots: map<Key, Slot<V>>, used: int, tick: nat, s: Store<V>, fired: set<Sig>, maxBytes: nat,
                       key: Key)
    requires s.pending == PendingOf(slots) && Consistent(slots, used, tick, s.nextSig, fired, s.ready, maxBytes)
    requires key in slots && slots[key].Pending?
    ensures Consistent(slots, used, tick + 1, s.nextSig, fired, s.ready, maxBytes)
    ensures TryClaim(s, key) == (s, Busy(slots[key].sig))
  {
    TracksFind(slots, s.ready, tick, key);
    WeakenTick(slots, s.ready, tick);
  }

  lemma MineRefines<V>(slots: map<Key, Slot<V>>, used: int, tick: nat, s: Store<V>, fired: set<Sig>, maxBytes: nat,
                       key: Key)
    requires s.pending == PendingOf(slots) && Consistent(slots, used, tick, s.nextSig, fired, s.ready, maxBytes)
    requires key !in slots
    ensures var more := slots[key := Pending(s.nextSig)];
            && Consistent(more, used, tick + 1, s.nextSig + 1, fired, s.ready, maxBytes)
            && PendingOf(more) == s.pending[key := s.nextSig]
            && TryClaim(s, key) ==
                 (s.(pending := PendingOf(more), nextSig := s.nextSig + 1, misses := s.misses + 1), Mine)
  {
    var more := slots[key := Pending(s.nextSig)];
    TracksFind(slots, s.ready, tick, key);
    WeakenTick(slots, s.ready, tick);
    OpenSignal(PendingOf(slots), s.nextSig, fired, key);
    assert PendingOf(more) == PendingOf(slots)[key := s.nextSig];
    forall i | 0 <= i < |s.ready| ensures Holds(more, s.ready[i], tick + 1) {
      assert Holds(slots, s.ready[i], tick);
    }
    forall i, j | 0 <= i < j < |s.ready| ensures Older(more, s.ready, i, j) {
      assert Older(slots, s.ready, i, j);
    }
  }

  lemma WeakenTick<V>(slots: map<Key, Slot<V>>, recency: seq<Entry<V>>, tick: nat)
    requires Tracks(slots, recency, tick)
    ensures Tracks(slots, recency, tick + 1)
  {
    forall i | 0 <= i < |recency| ensures Holds(slots, recency[i], tick + 1) {
      assert Holds(slots, recency[i], tick);
    }
  }

  lemma RemovePending<V>(slots: map<Key, Slot<V>>, recency: seq<Entry<V>>, tick: nat, key: Key)
    requires Tracks(slots, recency, tick) && key in slots && slots[key].Pending?
    ensures Tracks(slots - {key}, recency, tick)
    ensures PendingOf(slots - {key}) == PendingOf(slots) - {key}
  {
    var fewer := slots - {key};
    forall i | 0 <= i < |recency| ensures Holds(fewer, recency[i], tick) {
      assert Holds(slots, recency[i], tick);
    }
    forall i, j | 0 <= i < j < |recency| ensures Older(fewer, recency, i, j) {
      assert Older(slots, recency, i, j);
    }
  }

  /** The running byte count after publishing `e`: its own bytes in, those of the tile it replaces out. */
  lemma ReplaceBytes<V>(slots: map<Key, Slot<V>>, recency: seq<Entry<V>>, tick: nat, e: Entry<V>)
    requires Tracks(slots, recency, tick)
    ensures Bytes(Without(recency, e.key) + [e]) == Bytes(recency) + ArrayBytes(e.arr)
              - (if e.key in slots && slots[e.key].Ready? then slots[e.key].bytes else 0)
  {
    TracksDistinct(slots, recency, tick);
    TracksFind(slots, recency, tick, e.key);
    BytesConcat(Without(recency, e.key), [e]);
    assert Bytes([e]) == ArrayBytes(e.arr) + Bytes<V>([]);
    if Has(recency, e.key) {
      var i :| 0 <= i < |recency| && recency[i].key == e.key;
      assert Holds(slots, recency[i], tick);
      WithoutRemovesOne(recency, i);
      BytesWithout(recency, i);
    } else {
      WithoutAbsent(recency, e.key);
    }
  }
}
