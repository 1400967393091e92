/** What the cache counts: every entry that was ever added is still there or was
    counted once when it left, and every call is counted once by its outcome. */
module CacheCounters {
  import opened Wrappers
  import opened CacheCore
  import opened CacheInvariants
  import opened Flights
  import SyncCache
  import AsyncCache
  import AsyncRuns

  // ----- entries: what is added, kept and counted out -----

  /** Everything but the expirations of a purge is as it was. */
  lemma {:induction false} PurgeCounts(s: State, now: int, owned: set<Key>)
    ensures var t := Purge(s, now, owned);
      && |t.entries| <= |s.entries|
      && t.counters == s.counters.(expirations := s.counters.expirations + |s.entries| - |t.entries|)
      && t.clearEpoch == s.clearEpoch
    decreases |s.heap|
  {
    hide Without, DropUnused;
    if s.heap != [] && s.heap[0].expiresAt <= now {
      PopCounts(s, owned);
      PurgeCounts(PopRecord(s, owned), now, owned);
    }
  }

  lemma PopCounts(s: State, owned: set<Key>)
    requires s.heap != []
    ensures var t := PopRecord(s, owned);
      && |t.entries| <= |s.entries| && |t.heap| < |s.heap| && t.clearEpoch == s.clearEpoch
      && t.counters == s.counters.(expirations := s.counters.expirations + |s.entries| - |t.entries|)
  {
    var key := s.heap[0].key;
    RemovedSize(s.entries, key);
  }

  lemma RemovedSize(entries: map<Key, Entry>, key: Key)
    ensures |entries - {key}| == |entries| - if key in entries then 1 else 0
  {
    assert (entries - {key}).Keys == entries.Keys - {key};
    assert |entries| == |entries.Keys| && |entries - {key}| == |(entries - {key}).Keys|;
  }

  lemma AddedSize(entries: map<Key, Entry>, key: Key, e: Entry)
    ensures |entries[key := e]| == |entries| + if key in entries then 0 else 1
  {
    assert entries[key := e].Keys == entries.Keys + {key};
    assert |entries| == |entries.Keys| && |entries[key := e]| == |entries[key := e].Keys|;
  }

  lemma {:induction false} EvictCounts(s: State, owned: set<Key>)
    requires Ordered(s)
    ensures var t := Evict(s, owned);
      && |t.entries| <= |s.entries|
      && t.counters == s.counters.(evictions := s.counters.evictions + |s.entries| - |t.entries|)
      && t.clearEpoch == s.clearEpoch
    decreases |s.order|
  {
    if |s.order| > s.maxSize {
      EvictOneOrdered(s, owned);
      RemovedSize(s.entries, s.order[0]);
      EvictCounts(EvictOne(s, owned), owned);
    }
  }

  lemma StoreCounts(s: State, key: Key, value: Val, ttl: int, now: int, owned: set<Key>)
    requires Valid(s)
    ensures var p, t := Purge(s, now, owned), Store(s, key, value, ttl, now, owned);
      var added := if key in p.entries then 0 else 1;
      && |t.entries| <= |p.entries| + added
      && t.counters == p.counters.(evictions := p.counters.evictions + |p.entries| + added - |t.entries|)
      && t.clearEpoch == p.clearEpoch
  {
    hide Purge, Evict, Push, Without, Heapify, LiveRecords, HeapSorted, Numbered, Covered;
    var p := Purge(s, now, owned);
    PurgeOrdered(s, now, owned);
    var e := Entry(value, now + ttl, Version(p, key) + 1);
    AddedSize(p.entries, key, e);
    InsertOrdered(p, key, value, now + ttl);
    EvictCounts(Insert(p, key, value, now + ttl), owned);
  }

  /** What has left the cache and been counted, with what is still in it. */
  function Accounted(s: State): int {
    |s.entries| + s.counters.expirations + s.counters.evictions + s.counters.invalidations
  }

  /** What a call adds: one entry by a store of a key that is absent once expired
      entries are gone; a clear takes all entries without counting them. */
  function Adds(s: State, c: Call): int {
    match c.op
    case StoreOp(key, _, _, now) => if key in Purge(s, now, c.owned).entries then 0 else 1
    case ClearOp => -|s.entries|
    case _ => 0
  }

  /** Which calls count what. */
  predicate Counts(c: Call, before: Counters, after: Counters, found: bool) {
    && after.hits == before.hits + (if c.op.GetOp? && found then 1 else 0)
    && after.misses == before.misses + (if c.op.GetOp? && !found then 1 else 0)
    && before.expirations <= after.expirations && before.evictions <= after.evictions
    && (after.expirations > before.expirations ==>
          c.op.PurgeOp? || c.op.GetOp? || c.op.StoreOp? || c.op.InvalidateOp?)
    && (after.evictions > before.evictions ==> c.op.StoreOp?)
    && after.invalidations == before.invalidations + (if c.op.InvalidateOp? && found then 1 else 0)
    && after.loads == before.loads && after.loadFailures == before.loadFailures
    && after.loadRejections == before.loadRejections && after.coalescedWaiters == before.coalescedWaiters
  }

  /** The key of a get or an invalidate is there once expired entries are gone. */
  predicate Found(s: State, c: Call) {
    match c.op
    case GetOp(key, now) => key in Purge(s, now, c.owned).entries
    case InvalidateOp(key, now) => key in Purge(s, now, c.owned).entries
    case _ => false
  }

  lemma CallCounts(s: State, c: Call)
    requires Valid(s)
    ensures var t := Apply(s, c);
      && Accounted(t) == Accounted(s) + Adds(s, c) && Counts(c, s.counters, t.counters, Found(s, c))
      && t.clearEpoch == s.clearEpoch + (if c.op.ClearOp? then 1 else 0)
  {
    hide Valid, Purge, Store, Get, Invalidate;
    ValidOrdered(s);
    match c.op
    case PurgeOp(now) => PurgeCounts(s, now, c.owned);
    case GetOp(key, now) => GetCounts(s, key, now, c.owned);
    case StoreOp(key, value, ttl, now) => StoreCallCounts(s, key, value, ttl, now, c.owned);
    case InvalidateOp(key, now) => InvalidateCounts(s, key, now, c.owned);
    case ClearOp =>
    case BumpOp(key) =>
    case DropOp(key) =>
  }

  lemma ValidOrdered(s: State)
    requires Valid(s)
    ensures Ordered(s)
  {
  }

  lemma GetCounts(s: State, key: Key, now: int, owned: set<Key>)
    ensures var t, call := Get(s, key, now, owned).0, Call(GetOp(key, now), owned);
      && Accounted(t) == Accounted(s) && Counts(call, s.counters, t.counters, Found(s, call))
      && t.clearEpoch == s.clearEpoch
  {
    hide Purge, Without;
    PurgeCounts(s, now, owned);
  }

  lemma StoreCallCounts(s: State, key: Key, value: Val, ttl: int, now: int, owned: set<Key>)
    requires Valid(s)
    ensures Ordered(s)
    ensures var t, call := Store(s, key, value, ttl, now, owned), Call(StoreOp(key, value, ttl, now), owned);
      && Accounted(t) == Accounted(s) + Adds(s, call) && Counts(call, s.counters, t.counters, false)
      && t.clearEpoch == s.clearEpoch
  {
    hide Valid, Purge, Store;
    ValidOrdered(s);
    PurgeCounts(s, now, owned);
    StoreCounts(s, key, value, ttl, now, owned);
  }

  lemma InvalidateCounts(s: State, key: Key, now: int, owned: set<Key>)
    ensures var t, call := Invalidate(s, key, now, owned).0, Call(InvalidateOp(key, now), owned);
      && Accounted(t) == Accounted(s) && Counts(call, s.counters, t.counters, Found(s, call))
      && t.clearEpoch == s.clearEpoch
  {
    hide Purge, Without;
    PurgeCounts(s, now, owned);
    RemovedSize(Purge(s, now, owned).entries, key);
  }

  predicate SameLoads(s: State, t: State) {
    && t.counters.loads == s.counters.loads && t.counters.loadFailures == s.counters.loadFailures
    && t.counters.loadRejections == s.counters.loadRejections
    && t.counters.coalescedWaiters == s.counters.coalescedWaiters
  }

  /** Everything the calls of a run have added. */
  ghost function Added(maxSize: nat, calls: seq<Call>): int
    requires maxSize >= 1
  {
    if calls == [] then 0
    else
      var init := calls[..|calls| - 1];
      Added(maxSize, init) + Adds(CacheInvariants.Run(maxSize, init), calls[|calls| - 1])
  }

  /** Conservation, in every run: the entries present and those counted as expired,
      evicted or invalidated are together all that was added. */
  lemma {:induction false} EntriesConserved(maxSize: nat, calls: seq<Call>)
    requires maxSize >= 1
    ensures Accounted(CacheInvariants.Run(maxSize, calls)) == Added(maxSize, calls)
  {
    hide CacheInvariants.Apply, Valid, Fresh;
    if calls != [] {
      var init := calls[..|calls| - 1];
      EntriesConserved(maxSize, init);
      CallCounts(CacheInvariants.Run(maxSize, init), calls[|calls| - 1]);
    }
  }

  function Clears(calls: seq<Call>): nat {
    if calls == [] then 0 else Clears(calls[..|calls| - 1]) + if calls[|calls| - 1].op.ClearOp? then 1 else 0
  }

  /** The epoch is the number of clears, so no two periods between clears share one. */
  lemma {:induction false} EpochCountsClears(maxSize: nat, calls: seq<Call>)
    requires maxSize >= 1
    ensures CacheInvariants.Run(maxSize, calls).clearEpoch == Clears(calls)
  {
    hide CacheInvariants.Apply, Valid, Fresh;
    if calls != [] {
      var init := calls[..|calls| - 1];
      EpochCountsClears(maxSize, init);
      CallCounts(CacheInvariants.Run(maxSize, init), calls[|calls| - 1]);
    }
  }

  // ----- loads: every call is counted once by its outcome -----

  lemma ReadCounts(c: Cache, key: Key, tick: int)
    ensures var (d, r) := Read(c, key, tick);
      && SameLoads(c.core, d.core)
      && d.core.counters.hits == c.core.counters.hits + (if r.Some? then 1 else 0)
      && d.core.counters.misses == c.core.counters.misses + (if r.Some? then 0 else 1)
  {
    hide Purge;
    var n := Clamped(c, tick);
    PurgeCounts(n.core, n.core.lastTick, Keys(c));
  }

  /** A call of `get_or_load` counts a hit, or a miss and one of: a coalesced waiter, a
      rejection, a load. */
  lemma BeginLoadCounts(c: Cache, key: Key, ttl: int, tick: int)
    ensures var (d, reply) := SyncCache.BeginLoad(c, key, ttl, tick);
      var before, after := c.core.counters, d.core.counters;
      && after.hits == before.hits + (if reply.Hit? then 1 else 0)
      && after.misses == before.misses + (if reply.Hit? then 0 else 1)
      && after.coalescedWaiters == before.coalescedWaiters + (if reply.Joined? then 1 else 0)
      && after.loadRejections == before.loadRejections + (if reply.Rejected? then 1 else 0)
      && after.loads == before.loads + (if reply.Owner? then 1 else 0)
      && after.loadFailures == before.loadFailures
  {
    hide Read;
    ReadCounts(c, key, tick);
  }

  /** The end of a load counts a failure exactly if its loader failed; a clock that fails
      only while publishing is not counted. */
  lemma SettleCounts(c: Cache, f: nat, loaded: Outcome, clock: ClockRead, publish: bool)
    requires Valid(c.core) && f < |c.flights|
    ensures var d := Settle(c, f, loaded, clock, publish);
      var before, after := c.core.counters, d.core.counters;
      && after.loadFailures == before.loadFailures + (if loaded.Raised? then 1 else 0)
      && after.hits == before.hits && after.misses == before.misses && after.loads == before.loads
      && after.loadRejections == before.loadRejections && after.coalescedWaiters == before.coalescedWaiters
  {
    hide Purge, Store, HeapSorted, Numbered, Covered;
    if publish && loaded.Returned? && clock.Tick? {
      var n := Clamped(c, clock.tick).core;
      ValidTransfer(c.core, n);
      PurgeCounts(n, n.lastTick, Keys(c));
      StoreCounts(n, c.flights[f].key, loaded.value, c.flights[f].ttl, n.lastTick, Keys(c));
    }
  }

  /** What the callers of a run were told. */
  datatype Told = Told(hits: nat, misses: nat, joined: nat, rejected: nat, owners: nat, failures: nat)

  ghost function Replies(maxSize: nat, maxInflight: nat, steps: seq<SyncCache.Step>): Told
    requires maxSize >= 1
  {
    if steps == [] then Told(0, 0, 0, 0, 0, 0)
    else
      var init, last := steps[..|steps| - 1], steps[|steps| - 1];
      var n := Replies(maxSize, maxInflight, init);
      var c := SyncCache.Run(maxSize, maxInflight, init);
      match last
      case GetStep(key, tick) =>
        if Read(c, key, tick).1.Some? then n.(hits := n.hits + 1) else n.(misses := n.misses + 1)
      case LoadStep(key, ttl, tick) =>
        (match SyncCache.BeginLoad(c, key, ttl, tick).1
         case Hit(_) => n.(hits := n.hits + 1)
         case Joined(_) => n.(misses := n.misses + 1, joined := n.joined + 1)
         case Rejected => n.(misses := n.misses + 1, rejected := n.rejected + 1)
         case Owner(_) => n.(misses := n.misses + 1, owners := n.owners + 1))
      case FinishStep(f, loaded, _) =>
        if f in c.owned && loaded.Raised? then n.(failures := n.failures + 1) else n
      case _ => n
  }

  predicate Matches(c: Counters, n: Told) {
    && c.hits == n.hits && c.misses == n.misses && c.coalescedWaiters == n.joined && c.loadRejections == n.rejected
    && c.loads == n.owners && c.loadFailures == n.failures
  }

  lemma StepCounts(c: Cache, step: SyncCache.Step)
    requires Inv(c) && !step.GetStep? && !step.LoadStep? && !step.FinishStep?
    ensures var d := SyncCache.Apply(c, step).core;
      SameLoads(c.core, d) && d.counters.hits == c.core.counters.hits && d.counters.misses == c.core.counters.misses
  {
    hide Purge, Store, Valid, Supersede, Keys, VersionsBounded, FlightsConsistent, ActiveEpochs;
    match step
    case SetStep(key, value, ttl, tick) =>
      var n := Clamped(Supersede(c, key), tick);
      SyncCache.SupersedeCore(c, key);
      ValidTransfer(c.core, n.core);
      SyncCache.OrderedCore(c);
      PurgeCounts(n.core, n.core.lastTick, Keys(n));
      StoreCounts(n.core, key, value, ttl, n.core.lastTick, Keys(n));
    case InvalidateStep(key, tick) =>
      var n := Supersede(Clamped(c, tick), key);
      SyncCache.SupersedeCore(Clamped(c, tick), key);
      PurgeCounts(n.core, n.core.lastTick, Keys(n));
    case ClearStep(tick) =>
    case PurgeStep(tick) =>
      var n := Clamped(c, tick);
      PurgeCounts(n.core, n.core.lastTick, Keys(c));
  }

  /** In every interleaving the counters are exactly what the callers were told. */
  lemma {:induction false} RunCounts(maxSize: nat, maxInflight: nat, steps: seq<SyncCache.Step>)
    requires maxSize >= 1
    ensures Matches(SyncCache.Run(maxSize, maxInflight, steps).core.counters, Replies(maxSize, maxInflight, steps))
  {
    hide Inv, Read, SyncCache.BeginLoad, Settle, SyncCache.Tight, SyncCache.CanPublish;
    if steps != [] {
      var init, last := steps[..|steps| - 1], steps[|steps| - 1];
      RunCounts(maxSize, maxInflight, init);
      var c := SyncCache.Run(maxSize, maxInflight, init);
      match last
      case GetStep(key, tick) => ReadCounts(c, key, tick);
      case LoadStep(key, ttl, tick) => BeginLoadCounts(c, key, ttl, tick);
      case FinishStep(f, loaded, clock) =>
        if f in c.owned {
          InvParts(c);
          ActiveFacts(c);
          SettleCounts(c, f, loaded, clock, SyncCache.CanPublish(c, f, loaded));
        }
      case _ => StepCounts(c, last);
    }
  }

  /** The asynchronous `get_or_load` counts the same way; a task that cannot be created
      is neither a load nor a failure. */
  lemma AsyncBeginLoadCounts(c: Cache, key: Key, ttl: int, tick: int, taskError: Option<Failure>)
    requires FlightsConsistent(c)
    ensures var (d, reply) := AsyncCache.BeginLoad(c, key, ttl, tick, taskError);
      var before, after := c.core.counters, d.core.counters;
      && after.hits == before.hits + (if reply.Hit? then 1 else 0)
      && after.misses == before.misses + (if reply.Hit? then 0 else 1)
      && after.coalescedWaiters ==
           before.coalescedWaiters + (if reply.Waits? && reply.flight != |c.flights| then 1 else 0)
      && after.loadRejections == before.loadRejections + (if reply.Rejected? then 1 else 0)
      && after.loads == before.loads + (if reply == AsyncCache.Waits(|c.flights|) then 1 else 0)
      && after.loadFailures == before.loadFailures
  {
    hide Read;
    ReadCounts(c, key, tick);
    AsyncRuns.ReadTables(c, key, tick);
    ActiveFacts(c);
  }
}
