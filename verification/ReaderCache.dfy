/** The cache of opened readers: entries live for a while, a full cache drops an oldest one. Looking up, opening and
    inserting are separate steps, so calls interleave between them. Time is a number that never runs backwards. */
module ReaderCache {
  import opened Wrappers

  datatype Entry<C> = Entry(cog: C, inserted: int)

  type Table<C> = map<string, Entry<C>>

  /** When the expiry sweep looks at each key: it reads the clock once per entry, in the order of the map. */
  type Readings = string -> int

  ghost predicate ReadBetween(clock: Readings, now: int, later: int) {
    now <= later && forall k :: now <= clock(k) <= later
  }

  /** The entries younger than ttl when the sweep looks at them. */
  function Young<C>(t: Table<C>, ttl: nat, clock: Readings): Table<C> {
    map k | k in t && clock(k) - t[k].inserted < ttl :: t[k]
  }

  predicate IsOldest<C>(t: Table<C>, k: string) {
    k in t && forall j :: j in t ==> t[k].inserted <= t[j].inserted
  }

  /** What a lookup finds. */
  function Found<C>(t: Table<C>, ttl: nat, key: string, now: int): Option<Entry<C>> {
    if ttl > 0 && key in t && now - t[key].inserted < ttl then Some(t[key]) else None
  }

  /** t' is what an insertion may leave: expired entries gone, one oldest entry gone if the table is full and the
      key new. */
  ghost predicate Inserted<C>(t: Table<C>, t': Table<C>, ttl: nat, cap: nat, key: string, entry: Entry<C>,
                              clock: Readings) {
    if ttl == 0 then t' == t
    else
      var young := Young(t, ttl, clock);
      if |young| >= cap && key !in young && young != map[] then
        exists k :: IsOldest(young, k) && t' == (young - {k})[key := entry]
      else t' == young[key := entry]
  }

  class Cache<C> {
    const ttl: nat
    const cap: nat
    var table: Table<C>

    constructor (ttl: nat, cap: nat)
      ensures this.ttl == ttl && this.cap == cap && table == map[]
    {
      this.ttl, this.cap, table := ttl, cap, map[];
    }

    /** The first half of get_or_open. */
    method Lookup(key: string, now: int) returns (hit: Option<C>)
      ensures hit == match Found(table, ttl, key, now) case Some(e) => Some(e.cog) case None => None
      ensures hit == if ttl > 0 && key in table && now - table[key].inserted < ttl then Some(table[key].cog) else None
    {
      if ttl > 0 {
        if key in table {
          var e := table[key];
          if now - e.inserted < ttl {
            return Some(e.cog);
          }
        }
      }
      hit := None;
    }

    /** The second half, after the opener returned `cog`. */
    method Insert(key: string, cog: C, clock: Readings, later: int)
      modifies this
      ensures Inserted(old(table), table, ttl, cap, key, Entry(cog, later), clock)
      ensures ttl > 0 ==> key in table && table[key] == Entry(cog, later)
    {
      if ttl > 0 {
        table := Young(table, ttl, clock);
        if |table| >= cap && key !in table {
          var oldest := Oldest();
          if oldest.Some? {
            table := table - {oldest.value};
          }
        }
        table := table[key := Entry(cog, later)];
      }
    }

    /** Some entry with the least insertion time; which one, the map decides. */
    method Oldest() returns (k: Option<string>)
      ensures k.None? <==> table == map[]
      ensures k.Some? ==> IsOldest(table, k.value)
      ensures k.Some? ==> forall j :: j in table ==> table[k.value].inserted <= table[j].inserted
    {
      k := None;
      var rest := table.Keys;
      while rest != {}
        invariant rest <= table.Keys
        invariant k.None? ==> rest == table.Keys
        invariant k.Some? ==> k.value in table
        invariant k.Some? ==> forall j :: j in table && j !in rest ==> table[k.value].inserted <= table[j].inserted
        decreases |rest|
      {
        var j :| j in rest;
        if k.None? || table[j].inserted < table[k.value].inserted {
          k := Some(j);
        }
        rest := rest - {j};
      }
      assert k.None? ==> table.Keys == {};
    }
  }

  // ---- one insertion ------------------------------------------------------------------------

  lemma {:induction false} SmallerTable<C>(t: Table<C>, s: Table<C>)
    requires s.Keys <= t.Keys
    ensures |s| <= |t|
  {
    SmallerSet(s.Keys, t.Keys);
  }

  lemma {:induction false} SmallerSet(s: set<string>, t: set<string>)
    requires s <= t
    ensures |s| <= |t|
  {
    if s != {} {
      var k :| k in s;
      SmallerSet(s - {k}, t - {k});
    }
  }

  lemma UpdatedSize<C>(t: Table<C>, key: string, entry: Entry<C>)
    ensures |t[key := entry]| == if key in t then |t| else |t| + 1
  {
    assert t[key := entry].Keys == t.Keys + {key};
  }

  lemma RemovedSize<C>(t: Table<C>, k: string)
    requires k in t
    ensures |t - {k}| == |t| - 1
  {
    assert (t - {k}).Keys == t.Keys - {k};
  }

  /** The cap holds, except that a cache of cap 0 still keeps the one entry it was just given. */
  lemma InsertionKeepsCap<C>(t: Table<C>, t': Table<C>, ttl: nat, cap: nat, key: string, entry: Entry<C>,
                              clock: Readings)
    requires Inserted(t, t', ttl, cap, key, entry, clock)
    requires |t| <= if cap == 0 then 1 else cap
    ensures |t'| <= if cap == 0 then 1 else cap
  {
    if ttl > 0 {
      var young := Young(t, ttl, clock);
      SmallerTable(t, young);
      UpdatedSize(young, key, entry);
      if |young| >= cap && key !in young && young != map[] {
        var k :| IsOldest(young, k) && t' == (young - {k})[key := entry];
        RemovedSize(young, k);
        UpdatedSize(young - {k}, key, entry);
      }
    }
  }

  /** An entry that is dropped unexpired is the oldest of a full table, and the only one. */
  lemma InsertionDropsOldestOnly<C>(t: Table<C>, t': Table<C>, ttl: nat, cap: nat, key: string, entry: Entry<C>,
                                    clock: Readings, j: string)
    requires Inserted(t, t', ttl, cap, key, entry, clock) && ttl > 0
    requires j in Young(t, ttl, clock) && j !in t'
    ensures IsOldest(Young(t, ttl, clock), j) && |Young(t, ttl, clock)| >= cap && key !in Young(t, ttl, clock)
    ensures forall k :: k in Young(t, ttl, clock) && k != j ==> k in t' && t'[k] == Young(t, ttl, clock)[k]
  {
  }

  /** Whatever else is in the table afterwards was there before, unexpired and unchanged. */
  lemma InsertionKeepsOthers<C>(t: Table<C>, t': Table<C>, ttl: nat, cap: nat, key: string, entry: Entry<C>,
                                clock: Readings, k: string)
    requires Inserted(t, t', ttl, cap, key, entry, clock) && ttl > 0 && k in t'
    ensures if k == key then t'[k] == entry else k in t && t'[k] == t[k] && clock(k) - t[k].inserted < ttl
  {
  }

  /** An entry that goes in is there afterwards; unless the table is full and the key new, so is every entry that is not
      expired; with ttl 0 nothing happens. */
  lemma InsertionStores<C>(t: Table<C>, t': Table<C>, ttl: nat, cap: nat, key: string, entry: Entry<C>,
                           clock: Readings, now: int)
    requires Inserted(t, t', ttl, cap, key, entry, clock)
    ensures ttl == 0 ==> t' == t
    ensures ttl > 0 ==> key in t' && t'[key] == entry
    ensures ttl > 0 && (|Young(t, ttl, clock)| < cap || key in Young(t, ttl, clock)) ==>
              forall k :: k in t && k != key && clock(k) - t[k].inserted < ttl ==> k in t' && t'[k] == t[k]
    ensures Found(t', ttl, key, now) ==
              if ttl > 0 && now - entry.inserted < ttl then Some(entry) else None
  {
  }

  // ---- interleaved calls --------------------------------------------------------------------

  datatype Call<C> =
    | Looking(key: string)
    | Opening(key: string)
    | Opened(key: string, cog: C)
    | Hit(key: string, cog: C, inserted: int, at: int)
    | Stored(key: string, cog: C)
    | OpenFailed(key: string)

  /** `opens` and `inserts` record what happened: call i opened cog for key; cog went in for key at a time. */
  datatype System<C> = System(
    table: Table<C>,
    now: int,
    calls: seq<Call<C>>,
    opens: seq<(nat, string, C)>,
    inserts: seq<(string, C, int)>)

  ghost predicate LookupStep<C>(ttl: nat, s: System<C>, s': System<C>, i: nat)
    requires i < |s.calls|
  {
    && s.calls[i].Looking?
    && var key := s.calls[i].key;
       s' == s.(calls := s.calls[i := match Found(s.table, ttl, key, s.now)
                                      case Some(e) => Hit(key, e.cog, e.inserted, s.now)
                                      case None => Opening(key)])
  }

  ghost predicate OpenStep<C>(s: System<C>, s': System<C>, i: nat, result: Option<C>)
    requires i < |s.calls|
  {
    && s.calls[i].Opening?
    && var key := s.calls[i].key;
       match result
       case Some(cog) => s' == s.(calls := s.calls[i := Opened(key, cog)], opens := s.opens + [(i, key, cog)])
       case None => s' == s.(calls := s.calls[i := OpenFailed(key)])
  }

  /** The entry is stamped when it goes in, no earlier than any expiry check. */
  ghost predicate InsertStep<C>(ttl: nat, cap: nat, s: System<C>, s': System<C>, i: nat, clock: Readings, later: int)
    requires i < |s.calls|
  {
    && s.calls[i].Opened? && ReadBetween(clock, s.now, later)
    && var (key, cog) := (s.calls[i].key, s.calls[i].cog);
       && Inserted(s.table, s'.table, ttl, cap, key, Entry(cog, later), clock)
       && s'.now == later && s'.calls == s.calls[i := Stored(key, cog)] && s'.opens == s.opens
       && s'.inserts == if ttl == 0 then s.inserts else s.inserts + [(key, cog, later)]
  }

  ghost predicate Step<C(!new)>(ttl: nat, cap: nat, s: System<C>, s': System<C>) {
    || (exists later :: s.now <= later && s' == s.(now := later))
    || (exists i: nat :: i < |s.calls| && LookupStep(ttl, s, s', i))
    || (exists i: nat, result :: i < |s.calls| && OpenStep(s, s', i, result))
    || (exists i: nat, clock, later :: i < |s.calls| && InsertStep(ttl, cap, s, s', i, clock, later))
  }

  ghost predicate Init<C>(s: System<C>) {
    s.table == map[] && s.opens == [] && s.inserts == [] && forall i :: 0 <= i < |s.calls| ==> s.calls[i].Looking?
  }

  ghost predicate StepsAt<C(!new)>(ttl: nat, cap: nat, run: seq<System<C>>, n: int)
    requires 0 <= n < |run| - 1
  {
    Step(ttl, cap, run[n], run[n + 1])
  }

  ghost predicate Run<C(!new)>(ttl: nat, cap: nat, run: seq<System<C>>) {
    && run != [] && Init(run[0])
    && forall n :: 0 <= n < |run| - 1 ==> StepsAt(ttl, cap, run, n)
  }

  /** Some call opened `cog` for `key`. */
  ghost predicate OpenedFor<C>(s: System<C>, key: string, cog: C) {
    exists i: nat :: (i, key, cog) in s.opens
  }

  ghost predicate Inv<C(!new)>(ttl: nat, cap: nat, s: System<C>) {
    && |s.table| <= (if cap == 0 then 1 else cap)
    && (ttl == 0 ==> s.table == map[] && s.inserts == [])
    && (forall k :: k in s.table ==> (k, s.table[k].cog, s.table[k].inserted) in s.inserts)
    && (forall k, cog, time :: (k, cog, time) in s.inserts ==> OpenedFor(s, k, cog) && time <= s.now)
    && (forall i :: 0 <= i < |s.calls| ==> CallInv(ttl, s, i))
  }

  /** A hit returns something inserted under the key less than ttl ago; a miss what the call itself opened for it. */
  ghost predicate CallInv<C>(ttl: nat, s: System<C>, i: nat)
    requires i < |s.calls|
  {
    match s.calls[i]
    case Hit(key, cog, inserted, at) =>
      (key, cog, inserted) in s.inserts && inserted <= at <= s.now && at - inserted < ttl
    case Opened(key, cog) => (i, key, cog) in s.opens
    case Stored(key, cog) => (i, key, cog) in s.opens
    case _ => true
  }

  lemma LookupKeepsInv<C(!new)>(ttl: nat, cap: nat, s: System<C>, s': System<C>, i: nat)
    requires Inv(ttl, cap, s) && i < |s.calls| && LookupStep(ttl, s, s', i)
    ensures Inv(ttl, cap, s')
  {
    forall k, cog, time | (k, cog, time) in s'.inserts ensures OpenedFor(s', k, cog) && time <= s'.now {
      assert OpenedFor(s, k, cog);
    }
    forall j | 0 <= j < |s'.calls| ensures CallInv(ttl, s', j) {
      assert CallInv(ttl, s, j);
    }
  }

  lemma OpenKeepsInv<C(!new)>(ttl: nat, cap: nat, s: System<C>, s': System<C>, i: nat, result: Option<C>)
    requires Inv(ttl, cap, s) && i < |s.calls| && OpenStep(s, s', i, result)
    ensures Inv(ttl, cap, s')
  {
    forall k, cog, time | (k, cog, time) in s'.inserts ensures OpenedFor(s', k, cog) && time <= s'.now {
      assert OpenedFor(s, k, cog);
      var j: nat :| (j, k, cog) in s.opens;
      assert (j, k, cog) in s'.opens;
    }
    forall j | 0 <= j < |s'.calls| ensures CallInv(ttl, s', j) {
      assert CallInv(ttl, s, j);
    }
  }

  lemma InsertKeepsInv<C(!new)>(ttl: nat, cap: nat, s: System<C>, s': System<C>, i: nat, clock: Readings, later: int)
    requires Inv(ttl, cap, s) && i < |s.calls| && InsertStep(ttl, cap, s, s', i, clock, later)
    ensures Inv(ttl, cap, s')
  {
    var key, cog := s.calls[i].key, s.calls[i].cog;
    assert CallInv(ttl, s, i);
    InsertionKeepsCap(s.table, s'.table, ttl, cap, key, Entry(cog, later), clock);
    forall k | k in s'.table ensures (k, s'.table[k].cog, s'.table[k].inserted) in s'.inserts {
      if ttl > 0 {
        InsertionKeepsOthers(s.table, s'.table, ttl, cap, key, Entry(cog, later), clock, k);
      }
    }
    forall k, c, time | (k, c, time) in s'.inserts ensures OpenedFor(s', k, c) && time <= s'.now {
      if (k, c, time) in s.inserts {
        assert OpenedFor(s, k, c);
      } else {
        assert (i, k, c) in s'.opens;
      }
    }
    forall j | 0 <= j < |s'.calls| ensures CallInv(ttl, s', j) {
      assert CallInv(ttl, s, j);
    }
  }

  lemma TickKeepsInv<C(!new)>(ttl: nat, cap: nat, s: System<C>, s': System<C>, later: int)
    requires Inv(ttl, cap, s) && s.now <= later && s' == s.(now := later)
    ensures Inv(ttl, cap, s')
  {
    forall k, cog, time | (k, cog, time) in s'.inserts ensures OpenedFor(s', k, cog) && time <= s'.now {
      assert OpenedFor(s, k, cog);
    }
    forall j | 0 <= j < |s'.calls| ensures CallInv(ttl, s', j) {
      assert CallInv(ttl, s, j);
    }
  }

  lemma StepKeepsInv<C(!new)>(ttl: nat, cap: nat, s: System<C>, s': System<C>)
    requires Inv(ttl, cap, s) && Step(ttl, cap, s, s')
    ensures Inv(ttl, cap, s')
  {
    if later :| s.now <= later && s' == s.(now := later) {
      TickKeepsInv(ttl, cap, s, s', later);
    } else if i: nat :| i < |s.calls| && LookupStep(ttl, s, s', i) {
      LookupKeepsInv(ttl, cap, s, s', i);
    } else if i: nat, result :| i < |s.calls| && OpenStep(s, s', i, result) {
      OpenKeepsInv(ttl, cap, s, s', i, result);
    } else {
      var i: nat, clock, later :| i < |s.calls| && InsertStep(ttl, cap, s, s', i, clock, later);
      InsertKeepsInv(ttl, cap, s, s', i, clock, later);
    }
  }

  lemma InitHasInv<C(!new)>(ttl: nat, cap: nat, s: System<C>)
    requires Init(s)
    ensures Inv(ttl, cap, s)
  {
  }

  lemma {:induction false} RunKeepsInv<C(!new)>(ttl: nat, cap: nat, run: seq<System<C>>, n: nat)
    requires Run(ttl, cap, run) && n < |run|
    ensures Inv(ttl, cap, run[n])
  {
    if n == 0 {
      InitHasInv(ttl, cap, run[0]);
    } else {
      RunKeepsInv(ttl, cap, run, n - 1);
      assert StepsAt(ttl, cap, run, n - 1);
      StepKeepsInv(ttl, cap, run[n - 1], run[n]);
    }
  }

  lemma StepKeepsKeys<C(!new)>(ttl: nat, cap: nat, s: System<C>, s': System<C>)
    requires Step(ttl, cap, s, s')
    ensures |s'.calls| == |s.calls| && forall i :: 0 <= i < |s.calls| ==> s'.calls[i].key == s.calls[i].key
  {
  }

  /** Calls keep the key they were made with. */
  lemma {:induction false} KeysStay<C(!new)>(ttl: nat, cap: nat, run: seq<System<C>>, n: nat)
    requires Run(ttl, cap, run) && n < |run|
    ensures |run[n].calls| == |run[0].calls|
    ensures forall i :: 0 <= i < |run[n].calls| ==> run[n].calls[i].key == run[0].calls[i].key
  {
    if n > 0 {
      KeysStay(ttl, cap, run, n - 1);
      assert StepsAt(ttl, cap, run, n - 1);
      StepKeepsKeys(ttl, cap, run[n - 1], run[n]);
    }
  }

  /** Every returned value was opened for the key the call was made with; a hit is less than ttl old; never more than
      max(cap, 1) entries; with ttl 0 nothing is ever kept and no call hits. */
  lemma ReturnedWasOpened<C(!new)>(ttl: nat, cap: nat, run: seq<System<C>>, n: nat, i: nat)
    requires Run(ttl, cap, run) && n < |run| && i < |run[n].calls|
    ensures |run[n].table| <= if cap == 0 then 1 else cap
    ensures ttl == 0 ==> run[n].table == map[] && !run[n].calls[i].Hit?
    ensures i < |run[0].calls|
    ensures run[n].calls[i].Hit? || run[n].calls[i].Stored? ==>
              OpenedFor(run[n], run[0].calls[i].key, run[n].calls[i].cog)
    ensures run[n].calls[i].Hit? ==>
              && (run[0].calls[i].key, run[n].calls[i].cog, run[n].calls[i].inserted) in run[n].inserts
              && 0 <= run[n].calls[i].at - run[n].calls[i].inserted < ttl
  {
    RunKeepsInv(ttl, cap, run, n);
    KeysStay(ttl, cap, run, n);
    assert CallInv(ttl, run[n], i);
  }

  // ---- what leaves the table ----------------------------------------------------------------

  /** Call i stores its reader and entry j leaves: expired when the sweep looks at it, or the one oldest entry of a full
      table, with every other unexpired entry staying. */
  ghost predicate PushesOut<C>(ttl: nat, cap: nat, s: System<C>, s': System<C>, i: nat, clock: Readings, later: int,
                               j: string)
    requires i < |s.calls| && j in s.table
  {
    && InsertStep(ttl, cap, s, s', i, clock, later)
    && (clock(j) - s.table[j].inserted < ttl ==>
          var young := Young(s.table, ttl, clock);
          && |young| >= cap && s.calls[i].key !in young
          && forall k :: k in young && k != j ==>
               s.table[j].inserted <= s.table[k].inserted && k in s'.table && s'.table[k] == young[k])
  }

  lemma OnlyInsertionsDrop<C(!new)>(ttl: nat, cap: nat, s: System<C>, s': System<C>, j: string)
      returns (i: nat, clock: Readings, later: int)
    requires Step(ttl, cap, s, s') && j in s.table && j !in s'.table
    ensures i < |s.calls| && InsertStep(ttl, cap, s, s', i, clock, later)
  {
    i, clock, later :| i < |s.calls| && InsertStep(ttl, cap, s, s', i, clock, later);
  }

  lemma StepDropsOldestOnly<C(!new)>(ttl: nat, cap: nat, s: System<C>, s': System<C>, j: string)
      returns (i: nat, clock: Readings, later: int)
    requires Step(ttl, cap, s, s') && j in s.table && j !in s'.table
    ensures i < |s.calls| && PushesOut(ttl, cap, s, s', i, clock, later, j)
  {
    i, clock, later := OnlyInsertionsDrop(ttl, cap, s, s', j);
    var key, entry := s.calls[i].key, Entry(s.calls[i].cog, later);
    if ttl > 0 && clock(j) - s.table[j].inserted < ttl {
      InsertionDropsOldestOnly(s.table, s'.table, ttl, cap, key, entry, clock, j);
    }
  }

  /** In every run an entry leaves the table only when a call stores its reader, and then either expired or as the one
      oldest entry of a full table. */
  lemma DroppedWasOldest<C(!new)>(ttl: nat, cap: nat, run: seq<System<C>>, n: nat, j: string)
      returns (i: nat, clock: Readings, later: int)
    requires Run(ttl, cap, run) && n + 1 < |run| && j in run[n].table && j !in run[n + 1].table
    ensures i < |run[n].calls| && PushesOut(ttl, cap, run[n], run[n + 1], i, clock, later, j)
  {
    assert StepsAt(ttl, cap, run, n);
    i, clock, later := StepDropsOldestOnly(ttl, cap, run[n], run[n + 1], j);
  }

  // ---- which reader a lookup finds ----------------------------------------------------------

  /** Insertion m is the last one under the key. */
  ghost predicate Latest<C>(inserts: seq<(string, C, int)>, m: int, key: string) {
    0 <= m < |inserts| && inserts[m].0 == key && forall l :: m < l < |inserts| ==> inserts[l].0 != key
  }

  ghost function InsertedKeys<C>(inserts: seq<(string, C, int)>): set<string> {
    set m | 0 <= m < |inserts| :: inserts[m].0
  }

  ghost function EntryOf<C>(insert: (string, C, int)): Entry<C> {
    Entry(insert.1, insert.2)
  }

  /** The entries are latest insertions. */
  ghost predicate HoldsLatest<C>(s: System<C>) {
    forall k :: k in s.table ==> exists m :: Latest(s.inserts, m, k) && s.table[k] == EntryOf(s.inserts[m])
  }

  /** Every latest insertion not expired is an entry. */
  ghost predicate KeepsYoung<C>(ttl: nat, s: System<C>) {
    forall m, k :: Latest(s.inserts, m, k) && s.now - s.inserts[m].2 < ttl ==>
      k in s.table && s.table[k] == EntryOf(s.inserts[m])
  }

  lemma LatestAfter<C>(inserts: seq<(string, C, int)>, insert: (string, C, int), k: string, m: int)
    ensures Latest(inserts + [insert], m, k) <==>
              if k == insert.0 then m == |inserts| else Latest(inserts, m, k)
  {
    var more := inserts + [insert];
    if k == insert.0 {
      assert more[|inserts|].0 == k;
    } else if Latest(more, m, k) {
      forall l | m < l < |inserts| ensures inserts[l].0 != k {
        assert more[l] == inserts[l];
      }
    }
  }

  lemma InsertHoldsLatest<C>(ttl: nat, cap: nat, s: System<C>, s': System<C>, i: nat, clock: Readings, later: int)
    requires HoldsLatest(s) && i < |s.calls| && InsertStep(ttl, cap, s, s', i, clock, later)
    ensures HoldsLatest(s')
  {
    var key, entry := s.calls[i].key, Entry(s.calls[i].cog, later);
    forall k | ttl > 0 && k in s'.table
      ensures exists m :: Latest(s'.inserts, m, k) && s'.table[k] == EntryOf(s'.inserts[m])
    {
      InsertionKeepsOthers(s.table, s'.table, ttl, cap, key, entry, clock, k);
      if k == key {
        LatestAfter(s.inserts, (key, s.calls[i].cog, later), k, |s.inserts|);
      } else {
        var m :| Latest(s.inserts, m, k) && s.table[k] == EntryOf(s.inserts[m]);
        LatestAfter(s.inserts, (key, s.calls[i].cog, later), k, m);
      }
    }
  }

  lemma StepHoldsLatest<C(!new)>(ttl: nat, cap: nat, s: System<C>, s': System<C>)
    requires HoldsLatest(s) && Step(ttl, cap, s, s')
    ensures HoldsLatest(s')
  {
    if i: nat, clock, later :| i < |s.calls| && InsertStep(ttl, cap, s, s', i, clock, later) {
      InsertHoldsLatest(ttl, cap, s, s', i, clock, later);
    } else {
      assert s'.table == s.table && s'.inserts == s.inserts;
    }
  }

  lemma {:induction false} RunHoldsLatest<C(!new)>(ttl: nat, cap: nat, run: seq<System<C>>, n: nat)
    requires Run(ttl, cap, run) && n < |run|
    ensures HoldsLatest(run[n])
  {
    if n > 0 {
      RunHoldsLatest(ttl, cap, run, n - 1);
      assert StepsAt(ttl, cap, run, n - 1);
      StepHoldsLatest(ttl, cap, run[n - 1], run[n]);
    }
  }

  /** With no more keys than the cap a full table never meets a new key. */
  lemma RoomForKey<C>(cap: nat, s: System<C>, young: Table<C>, key: string, inserts: seq<(string, C, int)>)
    requires HoldsLatest(s) && young.Keys <= s.table.Keys && key !in young
    requires s.inserts <= inserts && key in InsertedKeys(inserts) && |InsertedKeys(inserts)| <= cap
    ensures |young| < cap
  {
    forall k | k in young.Keys + {key} ensures k in InsertedKeys(inserts) {
      if k in young {
        var m :| Latest(s.inserts, m, k);
        assert inserts[m] == s.inserts[m];
      }
    }
    SmallerSet(young.Keys + {key}, InsertedKeys(inserts));
    assert |young.Keys + {key}| == |young.Keys| + 1;
    assert |young| == |young.Keys|;
  }

  lemma InsertKeepsYoung<C(!new)>(ttl: nat, cap: nat, s: System<C>, s': System<C>, i: nat, clock: Readings, later: int)
    requires HoldsLatest(s) && KeepsYoung(ttl, s) && ttl > 0
    requires i < |s.calls| && InsertStep(ttl, cap, s, s', i, clock, later) && |InsertedKeys(s'.inserts)| <= cap
    ensures KeepsYoung(ttl, s')
  {
    var key, cog := s.calls[i].key, s.calls[i].cog;
    var insert, young := (key, cog, later), Young(s.table, ttl, clock);
    assert s'.inserts[|s.inserts|] == insert;
    if key !in young {
      RoomForKey(cap, s, young, key, s'.inserts);
    }
    InsertionStores(s.table, s'.table, ttl, cap, key, Entry(cog, later), clock, later);
    forall m, k | Latest(s'.inserts, m, k) && s'.now - s'.inserts[m].2 < ttl
      ensures k in s'.table && s'.table[k] == EntryOf(s'.inserts[m])
    {
      LatestAfter(s.inserts, insert, k, m);
      if k != key {
        assert s'.inserts[m] == s.inserts[m] && s.now <= clock(k) <= later;
      }
    }
  }

  lemma StepKeepsYoung<C(!new)>(ttl: nat, cap: nat, s: System<C>, s': System<C>)
    requires HoldsLatest(s) && KeepsYoung(ttl, s) && ttl > 0 && Step(ttl, cap, s, s')
    requires |InsertedKeys(s'.inserts)| <= cap
    ensures KeepsYoung(ttl, s')
  {
    if i: nat, clock, later :| i < |s.calls| && InsertStep(ttl, cap, s, s', i, clock, later) {
      InsertKeepsYoung(ttl, cap, s, s', i, clock, later);
    } else {
      assert s'.table == s.table && s'.inserts == s.inserts && s.now <= s'.now;
    }
  }

  lemma StepKeepsInserts<C(!new)>(ttl: nat, cap: nat, s: System<C>, s': System<C>)
    requires Step(ttl, cap, s, s')
    ensures s.inserts <= s'.inserts && InsertedKeys(s.inserts) <= InsertedKeys(s'.inserts)
  {
    assert s.inserts <= s'.inserts;
    forall k | k in InsertedKeys(s.inserts) ensures k in InsertedKeys(s'.inserts) {
      var m :| 0 <= m < |s.inserts| && s.inserts[m].0 == k;
      assert s'.inserts[m] == s.inserts[m];
    }
  }

  lemma {:induction false} RunKeepsYoung<C(!new)>(ttl: nat, cap: nat, run: seq<System<C>>, n: nat)
    requires Run(ttl, cap, run) && n < |run| && ttl > 0 && |InsertedKeys(run[n].inserts)| <= cap
    ensures KeepsYoung(ttl, run[n])
  {
    if n > 0 {
      assert StepsAt(ttl, cap, run, n - 1);
      StepKeepsInserts(ttl, cap, run[n - 1], run[n]);
      SmallerSet(InsertedKeys(run[n - 1].inserts), InsertedKeys(run[n].inserts));
      RunKeepsYoung(ttl, cap, run, n - 1);
      RunHoldsLatest(ttl, cap, run, n - 1);
      StepKeepsYoung(ttl, cap, run[n - 1], run[n]);
    }
  }

  /** In every run a hit is the latest insertion under its key. As long as no more keys were inserted than the cap, a
      lookup hits exactly when the latest insertion under its key is younger than the ttl. */
  lemma HitIsLatest<C(!new)>(ttl: nat, cap: nat, run: seq<System<C>>, n: nat, i: nat)
    requires Run(ttl, cap, run) && n + 1 < |run| && i < |run[n].calls| && LookupStep(ttl, run[n], run[n + 1], i)
    ensures var s, c := run[n], run[n + 1].calls[i];
            && c.key == s.calls[i].key
            && (c.Hit? ==> exists m :: Latest(s.inserts, m, c.key) && s.inserts[m] == (c.key, c.cog, c.inserted))
            && (|InsertedKeys(s.inserts)| <= cap && ttl > 0 ==>
                  (c.Hit? <==> exists m :: Latest(s.inserts, m, c.key) && s.now - s.inserts[m].2 < ttl))
  {
    var s, c := run[n], run[n + 1].calls[i];
    RunHoldsLatest(ttl, cap, run, n);
    if c.Hit? {
      var m :| Latest(s.inserts, m, c.key) && s.table[c.key] == EntryOf(s.inserts[m]);
    }
    if |InsertedKeys(s.inserts)| <= cap && ttl > 0 {
      RunKeepsYoung(ttl, cap, run, n);
    }
  }
}
