/** Any number of fetch_decoded calls sharing one tile cache. A step is one critical section of the
    cache, one wake-up, one fetch, or one signal fired after the lock is released; any call may take
    the next step. */
module FetchProtocol {
  import opened Wrappers
  import opened Arrays
  import opened TileStore
  import opened TileSource
  import Laws = TileStoreLaws

  /** `flaky` sources may also fail where the tile itself is sound. */
  datatype Config<!V> = Config(source: Source<V>, maxBytes: nat, flaky: bool)

  datatype Pc =
    | Claiming
    | Waiting(sig: Sig)
    | Fetching
    | Fulfilling
    | Aborting
    | Firing(sig: Sig, failing: bool)
    | Returned
    | Failed

  /** One call: its tiles, the slots filled so far, the indices it must fetch and how many of
      these are settled. */
  datatype Call<V> = Call(keys: seq<Key>, out: seq<Option<Array<V>>>, misses: seq<nat>, settled: nat, pc: Pc)

  datatype System<V> = System(store: Store<V>, fired: set<Sig>, aborted: nat, calls: seq<Call<V>>)

  predicate Failing(pc: Pc) {
    pc.Aborting? || pc.Failed? || (pc.Firing? && pc.failing)
  }

  predicate InClaimPhase(pc: Pc) {
    pc.Claiming? || pc.Waiting?
  }

  predicate Finished(pc: Pc) {
    pc.Returned? || pc.Failed?
  }

  ghost predicate DistinctKeys(keys: seq<Key>) {
    forall i, j :: 0 <= i < j < |keys| ==> keys[i] != keys[j]
  }

  /** What holds of one call's own variables between its steps. */
  ghost predicate Shape<V>(c: Call<V>) {
    && DistinctKeys(c.keys)
    && |c.out| <= |c.keys|
    && c.settled <= |c.misses|
    && (forall m :: 0 <= m < |c.misses| ==> c.misses[m] < |c.out|)
    && (forall m, n :: 0 <= m < n < |c.misses| ==> c.misses[m] < c.misses[n])
    && (c.pc.Waiting? ==> |c.out| < |c.keys|)
    && (!InClaimPhase(c.pc) ==> |c.out| == |c.keys|)
    && (InClaimPhase(c.pc) || c.pc.Fetching? ==> c.settled == 0)
    && (Finished(c.pc) ==> c.settled == |c.misses|)
    && (!Failing(c.pc) ==> forall j :: 0 <= j < |c.out| && c.out[j].None? ==> j in c.misses[c.settled..])
  }

  /** The keys a call was granted and has not settled yet. */
  ghost function Owed<V>(c: Call<V>): set<Key>
    requires Shape(c)
  {
    set m | c.settled <= m < |c.misses| :: c.keys[c.misses[m]]
  }

  ghost function CurrentKey<V>(c: Call<V>): Key
    requires Shape(c) && c.settled < |c.misses|
  {
    c.keys[c.misses[c.settled]]
  }

  ghost predicate SomeMissFailsFetch<V>(source: Source<V>, c: Call<V>)
    requires Shape(c)
  {
    exists m :: 0 <= m < |c.misses| && source(c.keys[c.misses[m]]).FetchFails?
  }

  ghost predicate SomeMissFails<V>(source: Source<V>, c: Call<V>)
    requires Shape(c)
  {
    exists m :: 0 <= m < |c.misses| && !source(c.keys[c.misses[m]]).Tile?
  }

  ghost predicate Enabled<V>(s: System<V>, i: nat)
    requires i < |s.calls|
  {
    match s.calls[i].pc
    case Waiting(sig) => sig in s.fired
    case Returned => false
    case Failed => false
    case _ => true
  }

  /** Whether the next fetch or decode of `c` may fail (`fail`) or succeed (`!fail`). */
  ghost predicate MayGo<V>(cfg: Config<V>, c: Call<V>, fail: bool)
    requires Shape(c)
  {
    match c.pc
    case Fetching =>
      && (SomeMissFailsFetch(cfg.source, c) ==> fail)
      && (fail ==> cfg.flaky || SomeMissFailsFetch(cfg.source, c))
    case Fulfilling =>
      if c.settled < |c.misses| then
        && (!cfg.source(CurrentKey(c)).Tile? ==> fail)
        && (fail ==> cfg.flaky || !cfg.source(CurrentKey(c)).Tile?)
      else !fail
    case _ => !fail
  }

  /** The state after call i takes its step. */
  ghost function Next<V>(cfg: Config<V>, s: System<V>, i: nat, fail: bool): System<V>
    requires i < |s.calls| && Shape(s.calls[i]) && Enabled(s, i) && MayGo(cfg, s.calls[i], fail)
  {
    var c := s.calls[i];
    match c.pc
    case Claiming =>
      if |c.out| < |c.keys| then
        var (store, outcome) := TryClaim(s.store, c.keys[|c.out|]);
        s.(store := store, calls := s.calls[i := AfterClaim(c, outcome)])
      else
        Move(s, i, if c.misses == [] then Returned else Fetching)
    case Waiting(_) => Move(s, i, Claiming)
    case Fetching => Move(s, i, if fail then Aborting else Fulfilling)
    case Fulfilling =>
      if c.settled == |c.misses| then Move(s, i, Returned)
      else if fail then Move(s, i, Aborting)
      else
        var arr := cfg.source(CurrentKey(c)).arr;
        var (store, sig) := Publish(s.store, cfg.maxBytes, CurrentKey(c), arr);
        s.(store := store, calls := s.calls[i := c.(
          out := c.out[c.misses[c.settled] := Some(arr)],
          settled := c.settled + 1,
          pc := if sig.Some? then Firing(sig.value, false) else Fulfilling)])
    case Aborting =>
      if c.settled == |c.misses| then Move(s, i, Failed)
      else
        var (store, sig) := Release(s.store, CurrentKey(c));
        s.(store := store, aborted := s.aborted + (if sig.Some? then 1 else 0), calls := s.calls[i := c.(
          settled := c.settled + 1,
          pc := if sig.Some? then Firing(sig.value, true) else Aborting)])
    case Firing(sig, failing) =>
      Move(s, i, if failing then Aborting else Fulfilling).(fired := s.fired + {sig})
    case _ => s
  }

  ghost function AfterClaim<V>(c: Call<V>, outcome: Outcome<V>): Call<V> {
    match outcome
    case Hit(arr) => c.(out := c.out + [Some(arr)])
    case Mine => c.(out := c.out + [None], misses := c.misses + [|c.out|])
    case Busy(sig) => c.(pc := Waiting(sig))
  }

  ghost function Move<V>(s: System<V>, i: nat, pc: Pc): System<V>
    requires i < |s.calls|
  {
    s.(calls := s.calls[i := s.calls[i].(pc := pc)])
  }

  /** Some call takes a step. */
  ghost predicate Step<V>(cfg: Config<V>, s: System<V>, t: System<V>) {
    exists i: nat, fail :: StepOf(cfg, s, i, fail, t)
  }

  ghost predicate StepOf<V>(cfg: Config<V>, s: System<V>, i: nat, fail: bool, t: System<V>) {
    i < |s.calls| && Shape(s.calls[i]) && Enabled(s, i) && MayGo(cfg, s.calls[i], fail) && t == Next(cfg, s, i, fail)
  }

  /** Calls about to start, over a cache left behind by finished calls. */
  ghost predicate Init<V>(cfg: Config<V>, s: System<V>) {
    && Valid(s.store) && s.store.pending == map[]
    && Bytes(s.store.ready) <= cfg.maxBytes
    && (forall e | e in s.store.ready :: cfg.source(e.key) == Tile(e.arr))
    && (forall sig | sig in s.fired :: sig < s.store.nextSig)
    && Laws.Unaccounted(s.store) == s.aborted
    && (forall i :: 0 <= i < |s.calls| ==> Fresh(s.calls[i]))
  }

  ghost predicate Fresh<V>(c: Call<V>) {
    DistinctKeys(c.keys) && c.out == [] && c.misses == [] && c.settled == 0 && c.pc == Claiming
  }

  ghost predicate StepsAt<V>(cfg: Config<V>, run: seq<System<V>>, n: int)
    requires 0 <= n < |run| - 1
  {
    Step(cfg, run[n], run[n + 1])
  }

  /** A run: consecutive states are steps. */
  ghost predicate Run<V>(cfg: Config<V>, run: seq<System<V>>) {
    && run != [] && Init(cfg, run[0])
    && forall n :: 0 <= n < |run| - 1 ==> StepsAt(cfg, run, n)
  }
}
