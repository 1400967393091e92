/** What the synchronous and the asynchronous loading cache share: the flight
    tables beside the cache state, and the sections that read or change them.

    Each section that runs under the cache lock is one atomic function on `Cache`.
    Flights are kept in `flights` and referred to by their position, which stands
    for object identity; `outcome` is set when the flight's load has ended.  A
    synchronous flight leaves `waiters`, `task` and `abandoned` alone. */
module Flights {
  import opened Wrappers
  import opened CacheCore
  import opened CacheInvariants

  type Failure(==,!new)

  datatype Outcome = Returned(value: Val) | Raised(error: Failure)

  datatype ClockRead = Tick(tick: int) | ClockRaised(error: Failure)

  datatype Flight = Flight(
    key: Key, epoch: nat, version: nat, ttl: int,
    superseded: bool, abandoned: bool, waiters: int, task: bool, outcome: Option<Outcome>)

  datatype Cache = Cache(
    core: State,
    maxInflight: nat,
    active: map<Key, nat>,
    owned: set<nat>,
    flights: seq<Flight>)

  function New(maxSize: nat, maxInflight: nat): Cache {
    Cache(Initial(maxSize), maxInflight, map[], {}, [])
  }

  function OwnedKeys(owned: set<nat>, flights: seq<Flight>): set<Key> {
    set f | f in owned && f < |flights| :: flights[f].key
  }

  function Keys(c: Cache): set<Key> {
    OwnedKeys(c.owned, c.flights)
  }

  function Clamped(c: Cache, tick: int): Cache {
    c.(core := ClampTick(c.core, tick))
  }

  function Supersede(c: Cache, key: Key): Cache {
    if key in c.active && c.active[key] < |c.flights| then
      c.(active := c.active - {key},
         flights := c.flights[c.active[key] := c.flights[c.active[key]].(superseded := true)])
    else c
  }

  function Read(c: Cache, key: Key, tick: int): (Cache, Option<Val>) {
    var n := Clamped(c, tick);
    var (core, found) := Get(n.core, key, n.core.lastTick, Keys(c));
    (n.(core := core), found)
  }

  /** The two calls on the cache state that a read makes. */
  lemma ReadSteps(c: Cache, key: Key, tick: int)
    ensures var n := ClampTick(c.core, tick);
      var (core, found) := Get(n, key, n.lastTick, OwnedKeys(c.owned, c.flights));
      Read(c, key, tick) == (c.(core := core), found)
  {
  }

  function Write(c: Cache, key: Key, value: Val, ttl: int, tick: int): Cache
    requires Ordered(c.core)
  {
    var n := Clamped(Supersede(c, key), tick);
    n.(core := Store(n.core, key, value, ttl, n.core.lastTick, Keys(n)))
  }

  function Remove(c: Cache, key: Key, tick: int): (Cache, bool) {
    var n := Supersede(Clamped(c, tick), key);
    var (core, removed) := Invalidate(n.core, key, n.core.lastTick, Keys(n));
    (n.(core := core), removed)
  }

  function SupersedeAll(active: map<Key, nat>, flights: seq<Flight>): seq<Flight> {
    seq(|flights|, i requires 0 <= i < |flights| =>
      if i in active.Values then flights[i].(superseded := true) else flights[i])
  }

  lemma SupersededKeys(c: Cache)
    ensures OwnedKeys(c.owned, SupersedeAll(c.active, c.flights)) == Keys(c)
  {
    var flights := SupersedeAll(c.active, c.flights);
    assert forall f | 0 <= f < |flights| :: flights[f].key == c.flights[f].key;
  }

  function Reset(c: Cache, tick: int): Cache {
    var n := Clamped(c, tick);
    n.(core := Clear(n.core, Keys(c)), active := map[], flights := SupersedeAll(c.active, c.flights))
  }

  function Purged(c: Cache, tick: int): Cache {
    var n := Clamped(c, tick);
    n.(core := Purge(n.core, n.core.lastTick, Keys(c)))
  }

  function NewFlight(s: State, key: Key, ttl: int, waiters: int, task: bool): Flight {
    Flight(key, s.clearEpoch, Version(s, key), ttl, false, false, waiters, task, None)
  }

  function Admitted(g: Cache, flight: Flight): Cache {
    g.(active := g.active[flight.key := |g.flights|],
       owned := g.owned + {|g.flights|},
       flights := g.flights + [flight])
  }

  /** The state that ending flight `f` reaches before it drops an unused version. */
  function SettledCore(c: Cache, f: nat, loaded: Outcome, clock: ClockRead, publish: bool): State
    requires Ordered(c.core) && f < |c.flights|
  {
    var stored :=
      if publish && loaded.Returned? && clock.Tick? then
        var n := Clamped(c, clock.tick).core;
        Store(n, c.flights[f].key, loaded.value, c.flights[f].ttl, n.lastTick, Keys(c))
      else c.core;
    if loaded.Raised? then stored.(counters := stored.counters.(loadFailures := stored.counters.loadFailures + 1))
    else stored
  }

  /** Flight `f` ends with `outcome` and the cache state `s`: it leaves the tables
      and its key's version is dropped if nothing else needs it. */
  function EndFlight(c: Cache, f: nat, s: State, outcome: Outcome): Cache
    requires f < |c.flights|
  {
    var key := c.flights[f].key;
    var owned := c.owned - {f};
    var flights := c.flights[f := c.flights[f].(outcome := Some(outcome))];
    Cache(
      DropUnused(s, key, OwnedKeys(owned, flights)),
      c.maxInflight,
      if key in c.active && c.active[key] == f then c.active - {key} else c.active,
      owned,
      flights)
  }

  /** End flight `f` with what its loader produced, storing it if `publish`. */
  function Settle(c: Cache, f: nat, loaded: Outcome, clock: ClockRead, publish: bool): Cache
    requires Ordered(c.core) && f < |c.flights|
  {
    var outcome := if publish && loaded.Returned? && clock.ClockRaised? then Raised(clock.error) else loaded;
    EndFlight(c, f, SettledCore(c, f, loaded, clock, publish), outcome)
  }

  // ----- the invariant both caches keep -----

  predicate Active(c: Cache, f: nat) {
    f < |c.flights| && c.flights[f].key in c.active && c.active[c.flights[f].key] == f
  }

  /** Active, and no version of its key has been assigned since its admission. */
  predicate Current(c: Cache, f: nat) {
    Active(c, f) && Version(c.core, c.flights[f].key) == c.flights[f].version
  }

  /** Owned means unfinished; each active entry is an owned flight of that key;
      an owned flight is active unless it was superseded or abandoned. */
  ghost predicate FlightsConsistent(c: Cache) {
    && (forall f | f in c.owned :: f < |c.flights|)
    && (forall f | 0 <= f < |c.flights| :: f in c.owned <==> c.flights[f].outcome.None?)
    && (forall k | k in c.active :: c.active[k] in c.owned && c.flights[c.active[k]].key == k)
    && (forall f | f in c.owned :: Active(c, f) <==> !c.flights[f].superseded && !c.flights[f].abandoned)
  }

  /** An active flight has the cache's epoch, and a version its key has reached. */
  ghost predicate ActiveEpochs(c: Cache) {
    forall k | k in c.active && c.active[k] < |c.flights| ::
      c.flights[c.active[k]].epoch == c.core.clearEpoch && c.flights[c.active[k]].version <= Version(c.core, k)
  }

  ghost predicate Inv(c: Cache) {
    && Valid(c.core)
    && VersionsBounded(c.core, Keys(c))
    && FlightsConsistent(c)
    && ActiveEpochs(c)
    && |c.owned| <= c.maxInflight
  }

  /** The keys whose flights a section makes unfit to publish. */
  datatype Touched = Nothing | OneKey(key: Key) | Everything {
    predicate Has(k: Key) {
      Everything? || (OneKey? && key == k)
    }
  }

  /** Every flight of `c` that is still owned in `d` is current in `d` exactly if
      it was in `c` and its key was not touched. */
  ghost predicate CurrentKept(c: Cache, d: Cache, touched: Touched) {
    forall f | f in c.owned && f in d.owned && f < |c.flights| ::
      Current(d, f) <==> Current(c, f) && !touched.Has(c.flights[f].key)
  }

  ghost predicate SameLimits(c: Cache, d: Cache) {
    d.maxInflight == c.maxInflight && d.core.maxSize == c.core.maxSize
  }

  ghost predicate SameFlights(c: Cache, d: Cache) {
    d.active == c.active && d.owned == c.owned && d.flights == c.flights && d.maxInflight == c.maxInflight
  }

  lemma SameFlightsConsistent(c: Cache, d: Cache)
    requires SameFlights(c, d)
    ensures FlightsConsistent(c) <==> FlightsConsistent(d)
    ensures Keys(d) == Keys(c)
  {
  }

  lemma ActiveFacts(c: Cache)
    requires FlightsConsistent(c)
    ensures forall k | k in c.active :: c.active[k] < |c.flights| && c.active[k] in c.owned && Active(c, c.active[k])
    ensures forall k | k in c.active :: k in Keys(c)
    ensures forall f | f in c.owned :: f < |c.flights| && c.flights[f].key in Keys(c)
  {
  }

  /** A section that leaves the flight tables alone and keeps the epoch and the
      versions of owned keys keeps the rest of the invariant. */
  lemma CoreOnly(c: Cache, d: Cache)
    requires Inv(c) && SameFlights(c, d)
    requires Valid(d.core) && VersionsBounded(d.core, Keys(c)) && d.core.clearEpoch == c.core.clearEpoch
    requires forall k | k in Keys(c) :: Version(d.core, k) == Version(c.core, k)
    ensures Inv(d) && CurrentKept(c, d, Nothing)
  {
    hide Valid, VersionsBounded, FlightsConsistent, Keys;
    SameFlightsConsistent(c, d);
    ActiveFacts(c);
  }

  lemma PurgedKeeps(c: Cache, tick: int)
    requires Inv(c)
    ensures var d := Purged(c, tick); Inv(d) && CurrentKept(c, d, Nothing) && SameFlights(c, d) && SameLimits(c, d)
  {
    hide Ordered, HeapSorted, Numbered, Covered, Purge, Inv, CurrentKept;
    InvParts(c);
    var n := Clamped(c, tick);
    ValidTransfer(c.core, n.core);
    PurgeKeeps(n.core, n.core.lastTick, Keys(c));
    PurgeVersionsBounded(n.core, n.core.lastTick, Keys(c));
    CoreOnly(c, Purged(c, tick));
  }

  lemma InvParts(c: Cache)
    requires Inv(c)
    ensures Valid(c.core) && VersionsBounded(c.core, Keys(c)) && FlightsConsistent(c) && ActiveEpochs(c)
  {
  }

  lemma ReadKeeps(c: Cache, key: Key, tick: int)
    requires Inv(c)
    ensures var d := Read(c, key, tick).0; Inv(d) && CurrentKept(c, d, Nothing) && SameFlights(c, d) && SameLimits(c, d)
  {
    hide Ordered, HeapSorted, Numbered, Covered, Purge, Inv, CurrentKept, Without;
    InvParts(c);
    var n := Clamped(c, tick);
    ValidTransfer(c.core, n.core);
    GetKeeps(n.core, key, n.core.lastTick, Keys(c));
    PurgeKeeps(n.core, n.core.lastTick, Keys(c));
    PurgeVersionsBounded(n.core, n.core.lastTick, Keys(c));
    CoreOnly(c, Read(c, key, tick).0);
  }

  lemma SupersedeFacts(c: Cache, key: Key)
    requires FlightsConsistent(c)
    ensures var n := Supersede(c, key);
      && FlightsConsistent(n) && Keys(n) == Keys(c)
      && n.core == c.core && n.owned == c.owned && n.maxInflight == c.maxInflight
      && n.active == c.active - {key}
      && |n.flights| == |c.flights|
      && (forall f | 0 <= f < |c.flights| :: n.flights[f] == c.flights[f].(superseded := n.flights[f].superseded))
      && (forall f | f in c.owned :: Active(n, f) <==> Active(c, f) && c.flights[f].key != key)
  {
    var n := Supersede(c, key);
    assert forall f | 0 <= f < |c.flights| :: n.flights[f].key == c.flights[f].key;
    assert Keys(n) == Keys(c);
  }

  /** The invariant after `key`'s flight is superseded and its version changed. */
  lemma AfterSupersede(c: Cache, d: Cache, key: Key)
    requires Inv(c)
    requires var n := Supersede(c, key); d.active == n.active && d.owned == n.owned && d.flights == n.flights
    requires d.maxInflight == c.maxInflight && d.core.maxSize == c.core.maxSize &&
        d.core.clearEpoch == c.core.clearEpoch
    requires Valid(d.core) && VersionsBounded(d.core, Keys(c))
    requires forall k | k in Keys(c) && k != key :: Version(d.core, k) == Version(c.core, k)
    ensures Inv(d) && CurrentKept(c, d, OneKey(key)) && SameLimits(c, d)
  {
    hide Valid, VersionsBounded, FlightsConsistent, Keys, Supersede;
    SupersedeFacts(c, key);
    ActiveFacts(c);
    SameFlightsConsistent(Supersede(c, key), d);
    ActiveFacts(d);
  }

  lemma ElsewhereKeepsVersions(s: State, t: State, key: Key, owned: set<Key>)
    requires ElsewherePreserved(s, t, key, owned)
    ensures forall k | k in owned && k != key :: Version(t, k) == Version(s, k)
  {
  }

  lemma WriteKeeps(c: Cache, key: Key, value: Val, ttl: int, tick: int)
    requires Inv(c)
    ensures var d := Write(c, key, value, ttl, tick); Inv(d) && CurrentKept(c, d, OneKey(key)) && SameLimits(c, d)
  {
    hide Ordered, HeapSorted, Numbered, Covered, Store, Supersede, FlightsConsistent, Inv, CurrentKept, SameLimits;
    InvParts(c);
    SupersedeFacts(c, key);
    var n := Clamped(Supersede(c, key), tick);
    ValidTransfer(c.core, n.core);
    StoreKeeps(n.core, key, value, ttl, n.core.lastTick, Keys(n));
    var d := Write(c, key, value, ttl, tick);
    ElsewhereKeepsVersions(n.core, d.core, key, Keys(n));
    AfterSupersede(c, d, key);
  }

  lemma RemoveKeeps(c: Cache, key: Key, tick: int)
    requires Inv(c)
    ensures var d := Remove(c, key, tick).0; Inv(d) && CurrentKept(c, d, OneKey(key)) && SameLimits(c, d)
  {
    hide Ordered, HeapSorted, Numbered, Covered, Invalidate, Supersede, FlightsConsistent, Inv, CurrentKept, SameLimits;
    InvParts(c);
    SameFlightsConsistent(c, Clamped(c, tick));
    SupersedeFacts(Clamped(c, tick), key);
    SupersedeClamped(c, tick, key);
    var n := Supersede(Clamped(c, tick), key);
    ValidTransfer(c.core, n.core);
    InvalidateKeeps(n.core, key, n.core.lastTick, Keys(n));
    var d := Remove(c, key, tick).0;
    ElsewhereKeepsVersions(n.core, d.core, key, Keys(n));
    AfterSupersede(c, d, key);
  }

  lemma SupersedeClamped(c: Cache, tick: int, key: Key)
    ensures Supersede(Clamped(c, tick), key) == Clamped(Supersede(c, key), tick)
  {
  }

  lemma ResetFlights(c: Cache, tick: int)
    requires FlightsConsistent(c)
    ensures FlightsConsistent(Reset(c, tick)) && Keys(Reset(c, tick)) == Keys(c)
  {
    var d := Reset(c, tick);
    assert forall f | 0 <= f < |c.flights| :: d.flights[f].key == c.flights[f].key;
    forall f | f in d.owned ensures d.flights[f].superseded || d.flights[f].abandoned {
      if Active(c, f) { assert f in c.active.Values; }
    }
  }

  lemma ResetKeeps(c: Cache, tick: int)
    requires Inv(c)
    ensures var d := Reset(c, tick); Inv(d) && CurrentKept(c, d, Everything) && SameLimits(c, d)
  {
    hide Ordered, HeapSorted, Numbered, Covered, FlightsConsistent, Keys;
    ResetFlights(c, tick);
    ValidTransfer(c.core, Clamped(c, tick).core);
    ClearKeeps(Clamped(c, tick).core, Keys(c));
  }

  lemma AdmittedFlights(g: Cache, flight: Flight)
    requires FlightsConsistent(g) && flight.key !in g.active
    requires flight.outcome.None? && !flight.superseded && !flight.abandoned
    ensures var d := Admitted(g, flight);
      && FlightsConsistent(d) && |g.flights| !in g.owned && Keys(d) == Keys(g) + {flight.key}
      && Active(d, |g.flights|)
      && forall f | f in g.owned :: f < |g.flights| && (Active(d, f) <==> Active(g, f))
  {
    var d := Admitted(g, flight);
    assert |g.flights| !in g.owned;
    assert forall f | 0 <= f < |g.flights| :: d.flights[f] == g.flights[f];
    assert Keys(d) == Keys(g) + {flight.key};
  }

  lemma AdmittedKeeps(g: Cache, flight: Flight)
    requires Inv(g) && flight.key !in g.active && |g.owned| < g.maxInflight
    requires flight == NewFlight(g.core, flight.key, flight.ttl, flight.waiters, flight.task)
    ensures var d := Admitted(g, flight);
      && Inv(d) && CurrentKept(g, d, Nothing) && SameLimits(g, d)
      && |g.flights| !in g.owned && Current(d, |g.flights|) && Keys(d) == Keys(g) + {flight.key}
  {
    hide Valid, FlightsConsistent, Keys;
    AdmittedFlights(g, flight);
    ActiveFacts(g);
  }

  lemma EndFlightTables(c: Cache, f: nat, s: State, outcome: Outcome)
    requires FlightsConsistent(c) && |c.owned| <= c.maxInflight && f in c.owned
    ensures f < |c.flights|
    ensures var d := EndFlight(c, f, s, outcome);
      && FlightsConsistent(d) && |d.owned| <= d.maxInflight && d.owned == c.owned - {f}
      && Keys(d) + {c.flights[f].key} == Keys(c) && Keys(d) <= Keys(c)
      && (forall k | k in d.active :: k in c.active && d.active[k] == c.active[k] && d.active[k] != f)
      && (forall g | 0 <= g < |c.flights| && g != f :: d.flights[g] == c.flights[g] && (Active(d, g) <==> Active(c, g)))
      && |d.flights| == |c.flights|
      && d.core == DropUnused(s, c.flights[f].key, Keys(d)) && d.maxInflight == c.maxInflight
  {
    hide DropUnused;
    var d := EndFlight(c, f, s, outcome);
    assert forall g | 0 <= g < |c.flights| :: d.flights[g].key == c.flights[g].key;
  }

  /** Ending an owned flight keeps the invariant and every other current flight;
      only an active flight's own key may have a new version. */
  lemma EndFlightKeeps(c: Cache, f: nat, s: State, outcome: Outcome)
    requires Inv(c) && f in c.owned && f < |c.flights|
    requires Valid(s) && s.clearEpoch == c.core.clearEpoch && s.maxSize == c.core.maxSize && VersionsBounded(s, Keys(c))
    requires forall k | k in Keys(c) && (k != c.flights[f].key || !Active(c, f)) :: Version(s, k) == Version(c.core, k)
    ensures var d := EndFlight(c, f, s, outcome); Inv(d) && CurrentKept(c, d, Nothing) && SameLimits(c, d)
  {
    hide Ordered, HeapSorted, Numbered, Covered, FlightsConsistent, Keys, EndFlight;
    InvParts(c);
    EndFlightTables(c, f, s, outcome);
    var d := EndFlight(c, f, s, outcome);
    DropKeeps(s, c.flights[f].key, Keys(d));
    ActiveFacts(c);
    ActiveFacts(d);
  }

  lemma SettledCoreKeeps(c: Cache, f: nat, loaded: Outcome, clock: ClockRead, publish: bool)
    requires Inv(c) && f < |c.flights|
    ensures var s := SettledCore(c, f, loaded, clock, publish);
      && Valid(s) && s.clearEpoch == c.core.clearEpoch && s.maxSize == c.core.maxSize
      && VersionsBounded(s, Keys(c))
      && (forall k | k in Keys(c) && (k != c.flights[f].key || !publish) :: Version(s, k) == Version(c.core, k))
  {
    hide Ordered, HeapSorted, Numbered, Covered, Store, FlightsConsistent, ActiveEpochs;
    if publish && loaded.Returned? && clock.Tick? {
      var n := Clamped(c, clock.tick).core;
      ValidTransfer(c.core, n);
      var key := c.flights[f].key;
      StoreKeeps(n, key, loaded.value, c.flights[f].ttl, n.lastTick, Keys(c));
      ElsewhereKeepsVersions(n, SettledCore(c, f, loaded, clock, publish), key, Keys(c));
    } else {
      ValidTransfer(c.core, SettledCore(c, f, loaded, clock, publish));
    }
  }

  lemma SettleKeeps(c: Cache, f: nat, loaded: Outcome, clock: ClockRead, publish: bool)
    requires Inv(c) && f in c.owned && (publish ==> Active(c, f))
    ensures f < |c.flights|
    ensures var d := Settle(c, f, loaded, clock, publish);
      Inv(d) && CurrentKept(c, d, Nothing) && SameLimits(c, d) && d.owned == c.owned - {f}
  {
    hide Inv, CurrentKept, SettledCore, EndFlight, SameLimits;
    InvParts(c);
    ActiveFacts(c);
    InvBounded(c);
    SettledCoreKeeps(c, f, loaded, clock, publish);
    var outcome := if publish && loaded.Returned? && clock.ClockRaised? then Raised(clock.error) else loaded;
    EndFlightTables(c, f, SettledCore(c, f, loaded, clock, publish), outcome);
    EndFlightKeeps(c, f, SettledCore(c, f, loaded, clock, publish), outcome);
  }

  /** Bumping an owned key's version leaves every flight of that key not current. */
  lemma BumpOwnedKeeps(c: Cache, key: Key)
    requires Inv(c) && key in Keys(c)
    ensures var d := c.(core := BumpVersion(c.core, key));
      Inv(d) && CurrentKept(c, d, OneKey(key)) && SameLimits(c, d) && SameFlights(c, d)
  {
    hide Valid, FlightsConsistent;
    var d := c.(core := BumpVersion(c.core, key));
    BumpKeeps(c.core, key);
    SameFlightsConsistent(c, d);
    ActiveFacts(c);
  }

  // ----- what each section does to a reader's expectations -----

  lemma PurgedFresh(c: Cache, tick: int, l: map<Key, Written>)
    requires Inv(c) && Fresh(c.core, l)
    ensures Fresh(Purged(c, tick).core, l)
  {
    hide Purge, Ordered, HeapSorted, Numbered, Covered;
    var n := Clamped(c, tick);
    ValidTransfer(c.core, n.core);
    PurgeKeeps(n.core, n.core.lastTick, Keys(c));
  }

  lemma ReadFresh(c: Cache, key: Key, tick: int, l: map<Key, Written>)
    requires Inv(c) && Fresh(c.core, l)
    ensures var (d, r) := Read(c, key, tick);
      && Fresh(d.core, l) && d.core.lastTick >= tick && d.core.lastTick >= c.core.lastTick
      && (r.Some? ==> key in l && l[key].value == r.value && l[key].expiresAt > d.core.lastTick)
  {
    hide Purge, Get, Ordered, HeapSorted, Numbered, Covered;
    var n := Clamped(c, tick);
    ValidTransfer(c.core, n.core);
    GetKeeps(n.core, key, n.core.lastTick, Keys(c));
    PurgeKeeps(n.core, n.core.lastTick, Keys(c));
  }

  lemma WriteFresh(c: Cache, key: Key, value: Val, ttl: int, tick: int, l: map<Key, Written>)
    requires Inv(c) && Fresh(c.core, l)
    ensures var d := Write(c, key, value, ttl, tick); Fresh(d.core, l[key := Written(value, d.core.lastTick + ttl)])
  {
    hide Ordered, HeapSorted, Numbered, Covered, Store, Supersede, FlightsConsistent;
    SupersedeFacts(c, key);
    var n := Clamped(Supersede(c, key), tick);
    ValidTransfer(c.core, n.core);
    StoreKeeps(n.core, key, value, ttl, n.core.lastTick, Keys(n));
  }

  lemma RemoveFresh(c: Cache, key: Key, tick: int, l: map<Key, Written>)
    requires Inv(c) && Fresh(c.core, l)
    ensures Fresh(Remove(c, key, tick).0.core, l - {key})
  {
    hide Ordered, HeapSorted, Numbered, Covered, Invalidate, Supersede, FlightsConsistent;
    SameFlightsConsistent(c, Clamped(c, tick));
    SupersedeFacts(Clamped(c, tick), key);
    var n := Supersede(Clamped(c, tick), key);
    ValidTransfer(c.core, n.core);
    InvalidateKeeps(n.core, key, n.core.lastTick, Keys(n));
  }

  /** A published load is stored for its caller's TTL; any other load changes no
      entry and no heap record. */
  lemma SettleFresh(c: Cache, f: nat, loaded: Outcome, clock: ClockRead, publish: bool, l: map<Key, Written>)
    requires Inv(c) && f in c.owned && Fresh(c.core, l)
    ensures f < |c.flights|
    ensures var d := Settle(c, f, loaded, clock, publish);
      var key := c.flights[f].key;
      if publish && loaded.Returned? && clock.Tick? then
        && d.core.lastTick == ClampTick(c.core, clock.tick).lastTick
        && key in d.core.entries && d.core.entries[key].value == loaded.value
        && d.core.entries[key].expiresAt == d.core.lastTick + c.flights[f].ttl
        && Fresh(d.core, l[key := Written(loaded.value, d.core.lastTick + c.flights[f].ttl)])
      else
        d.core.entries == c.core.entries && d.core.order == c.core.order && d.core.heap == c.core.heap &&
            Fresh(d.core, l)
  {
    hide Ordered, HeapSorted, Numbered, Covered, Store, VersionsBounded;
    if publish && loaded.Returned? && clock.Tick? {
      var n := Clamped(c, clock.tick);
      ValidTransfer(c.core, n.core);
      StoreKeeps(n.core, c.flights[f].key, loaded.value, c.flights[f].ttl, n.core.lastTick, Keys(c));
    }
  }

  // ----- bounds -----

  lemma ImageBounded(owned: set<nat>, flights: seq<Flight>)
    ensures |OwnedKeys(owned, flights)| <= |owned|
  {
    if owned == {} {
      assert OwnedKeys(owned, flights) == {};
    } else {
      var f :| f in owned;
      ImageBounded(owned - {f}, flights);
      if f < |flights| {
        assert OwnedKeys(owned, flights) == OwnedKeys(owned - {f}, flights) + {flights[f].key};
      } else {
        assert OwnedKeys(owned, flights) == OwnedKeys(owned - {f}, flights);
      }
    }
  }

  lemma SubsetBounded(a: set<Key>, b: set<Key>)
    requires a <= b
    ensures |a| <= |b|
  {
    if a != {} {
      var k :| k in a;
      SubsetBounded(a - {k}, b - {k});
    }
  }

  /** At most `max_size` entries, twice that many heap records, `max_inflight`
      owned flights, and as many kept versions as entries and flights allow. */
  lemma InvBounded(c: Cache)
    requires Inv(c)
    ensures |c.core.entries| <= c.core.maxSize && |c.core.heap| <= 2 * c.core.maxSize
    ensures |c.owned| <= c.maxInflight
    ensures |c.core.versions| <= c.core.maxSize + c.maxInflight
  {
    OrderCounts(c.core.entries.Keys, c.core.order);
    ImageBounded(c.owned, c.flights);
    SubsetBounded(c.core.versions.Keys, c.core.entries.Keys + Keys(c));
  }

  // ----- what no section undoes -----

  predicate FlightKept(a: Flight, b: Flight) {
    b.key == a.key && b.ttl == a.ttl && b.abandoned == a.abandoned && (a.outcome.Some? ==> b.outcome == a.outcome)
  }

  /** No flight is removed, loses what it was admitted with or its outcome; at most
      one is added, and if owned it is current. */
  ghost predicate Grew(c: Cache, d: Cache) {
    && |c.flights| <= |d.flights| <= |c.flights| + 1
    && (forall f | 0 <= f < |c.flights| :: FlightKept(c.flights[f], d.flights[f]))
    && d.owned <= c.owned + {|c.flights|}
    && (|c.flights| in d.owned ==> Current(d, |c.flights|) && !d.flights[|c.flights|].abandoned)
  }

  lemma GrewNothing(c: Cache, d: Cache)
    requires d.flights == c.flights && d.owned == c.owned && |c.flights| !in c.owned
    ensures Grew(c, d)
  {
  }

  lemma WriteGrew(c: Cache, key: Key, value: Val, ttl: int, tick: int)
    requires Ordered(c.core) && |c.flights| !in c.owned
    ensures Grew(c, Write(c, key, value, ttl, tick))
  {
    hide Ordered, Store;
  }

  lemma RemoveGrew(c: Cache, key: Key, tick: int)
    requires |c.flights| !in c.owned
    ensures Grew(c, Remove(c, key, tick).0)
  {
    hide Invalidate;
  }

  lemma ResetGrew(c: Cache, tick: int)
    requires |c.flights| !in c.owned
    ensures Grew(c, Reset(c, tick))
  {
    hide Clear;
  }

  lemma AdmittedGrew(c: Cache, g: Cache, key: Key, ttl: int, waiters: int, task: bool)
    requires g.flights == c.flights && g.owned == c.owned && |c.flights| !in c.owned
    ensures Grew(c, Admitted(g, NewFlight(g.core, key, ttl, waiters, task)))
  {
  }

  lemma EndFlightGrew(c: Cache, f: nat, s: State, outcome: Outcome)
    requires f < |c.flights| && c.flights[f].outcome.None? && |c.flights| !in c.owned
    ensures Grew(c, EndFlight(c, f, s, outcome))
  {
    hide DropUnused;
  }
}
