/** The synchronous loading cache: the two locked sections of `get_or_load`, every
    interleaving of callers as a sequence of locked sections, and what holds in
    all of them.  Loaders and waiting callers run between the sections. */
module SyncCache {
  import opened Wrappers
  import opened CacheCore
  import opened CacheInvariants
  import CacheRefinement
  import opened Flights

  datatype LoadReply = Hit(value: Val) | Joined(flight: nat) | Rejected | Owner(flight: nat)

  function CountJoin(s: State): State {
    s.(counters := s.counters.(coalescedWaiters := s.counters.coalescedWaiters + 1))
  }

  function CountReject(s: State): State {
    s.(counters := s.counters.(loadRejections := s.counters.loadRejections + 1))
  }

  function CountLoad(s: State): State {
    s.(counters := s.counters.(loads := s.counters.loads + 1))
  }

  /** The locked part of `get_or_load` before the loader runs. */
  function BeginLoad(c: Cache, key: Key, ttl: int, tick: int): (Cache, LoadReply) {
    var (g, found) := Read(c, key, tick);
    if found.Some? then (g, Hit(found.value))
    else if key in g.active then (g.(core := CountJoin(g.core)), Joined(g.active[key]))
    else if |g.owned| >= g.maxInflight then (g.(core := CountReject(g.core)), Rejected)
    else
      (Admitted(g.(core := CountLoad(g.core)), NewFlight(g.core, key, ttl, 0, false)), Owner(|g.flights|))
  }

  predicate CanPublish(c: Cache, f: nat, loaded: Outcome)
    requires f < |c.flights|
  {
    var flight := c.flights[f];
    && loaded.Returned?
    && !flight.superseded
    && c.core.clearEpoch == flight.epoch
    && Version(c.core, flight.key) == flight.version
    && flight.key in c.active && c.active[flight.key] == f
  }

  /** The locked part of `get_or_load` after the loader has ended. */
  function Finish(c: Cache, f: nat, loaded: Outcome, clock: ClockRead): Cache
    requires Ordered(c.core) && f < |c.flights|
  {
    Settle(c, f, loaded, clock, CanPublish(c, f, loaded))
  }

  // ----- invariants of the synchronous cache -----

  /** No flight is abandoned, and active flights are current: their version is
      still the cache's. */
  ghost predicate Tight(c: Cache) {
    forall f | f in c.owned && f < |c.flights| ::
      !c.flights[f].abandoned && (Active(c, f) ==> Current(c, f))
  }

  lemma CountedKeeps(g: Cache, core: State)
    requires Inv(g) && core == g.core.(counters := core.counters)
    ensures var d := g.(core := core); Inv(d) && CurrentKept(g, d, Nothing) && SameFlights(g, d) && SameLimits(g, d)
  {
    hide Valid, FlightsConsistent;
    ValidTransfer(g.core, core);
    CoreOnly(g, g.(core := core));
  }

  lemma BeginLoadKeeps(c: Cache, key: Key, ttl: int, tick: int)
    requires Inv(c)
    ensures var (d, reply) := BeginLoad(c, key, ttl, tick);
      && Inv(d) && CurrentKept(c, d, Nothing) && SameLimits(c, d)
      && (reply.Owner? ==> reply.flight == |c.flights| && d.owned == c.owned + {reply.flight}
                           && Current(d, reply.flight) && d.flights[..|c.flights|] == c.flights)
      && (!reply.Owner? ==> SameFlights(c, d))
  {
    hide Inv, Read, CurrentKept;
    ReadKeeps(c, key, tick);
    var g := Read(c, key, tick).0;
    CountedKeeps(g, CountJoin(g.core));
    CountedKeeps(g, CountReject(g.core));
    CountedKeeps(g, CountLoad(g.core));
    var h := g.(core := CountLoad(g.core));
    if key !in g.active && |g.owned| < g.maxInflight {
      AdmittedKeeps(h, NewFlight(g.core, key, ttl, 0, false));
      KeptTwice(c, g, h);
      KeptTwice(c, h, Admitted(h, NewFlight(g.core, key, ttl, 0, false)));
    }
    KeptTwice(c, g, g.(core := CountJoin(g.core)));
    KeptTwice(c, g, g.(core := CountReject(g.core)));
  }

  lemma KeptTwice(c: Cache, g: Cache, d: Cache)
    ensures CurrentKept(c, g, Nothing) && SameFlights(c, g) && CurrentKept(g, d, Nothing) ==> CurrentKept(c, d, Nothing)
  {
  }

  /** While a flight is owned, the publication test passes exactly when the load
      succeeded and the flight is current. */
  lemma CanPublishIff(c: Cache, f: nat, loaded: Outcome)
    requires Inv(c) && f in c.owned
    ensures f < |c.flights|
    ensures CanPublish(c, f, loaded) <==> loaded.Returned? && Current(c, f)
  {
    hide Valid, VersionsBounded;
  }

  lemma FinishKeeps(c: Cache, f: nat, loaded: Outcome, clock: ClockRead)
    requires Inv(c) && f in c.owned
    ensures f < |c.flights|
    ensures var d := Finish(c, f, loaded, clock);
      && Inv(d) && CurrentKept(c, d, Nothing) && SameLimits(c, d) && d.owned == c.owned - {f}
  {
    hide Inv, CurrentKept, Settle, CanPublish, SameLimits;
    CanPublishIff(c, f, loaded);
    SettleKeeps(c, f, loaded, clock, CanPublish(c, f, loaded));
  }

  // ----- runs -----

  datatype Step =
    | GetStep(key: Key, tick: int)
    | SetStep(key: Key, value: Val, ttl: int, tick: int)
    | InvalidateStep(key: Key, tick: int)
    | ClearStep(tick: int)
    | PurgeStep(tick: int)
    | LoadStep(key: Key, ttl: int, tick: int)
    | FinishStep(flight: nat, loaded: Outcome, clock: ClockRead)

  function TouchedBy(step: Step): Touched {
    match step
    case SetStep(k, _, _, _) => OneKey(k)
    case InvalidateStep(k, _) => OneKey(k)
    case ClearStep(_) => Everything
    case _ => Nothing
  }

  /** Only the owner of a flight finishes it, once; any other finish is no step. */
  function Apply(c: Cache, step: Step): Cache
    requires Inv(c)
  {
    match step
    case GetStep(key, tick) => Read(c, key, tick).0
    case SetStep(key, value, ttl, tick) => Write(c, key, value, ttl, tick)
    case InvalidateStep(key, tick) => Remove(c, key, tick).0
    case ClearStep(tick) => Reset(c, tick)
    case PurgeStep(tick) => Purged(c, tick)
    case LoadStep(key, ttl, tick) => BeginLoad(c, key, ttl, tick).0
    case FinishStep(f, loaded, clock) => if f in c.owned then Finish(c, f, loaded, clock) else c
  }

  /** One section keeps the invariant, and leaves a flight current exactly when it
      does not touch the flight's key. */
  lemma ApplyKeeps(c: Cache, step: Step)
    requires Inv(c)
    ensures Inv(Apply(c, step)) && CurrentKept(c, Apply(c, step), TouchedBy(step)) && SameLimits(c, Apply(c, step))
  {
    hide Inv, Read, Write, Remove, Reset, Purged, BeginLoad, Finish;
    match step
    case GetStep(key, tick) => ReadKeeps(c, key, tick);
    case SetStep(key, value, ttl, tick) => WriteKeeps(c, key, value, ttl, tick);
    case InvalidateStep(key, tick) => RemoveKeeps(c, key, tick);
    case ClearStep(tick) => ResetKeeps(c, tick);
    case PurgeStep(tick) => PurgedKeeps(c, tick);
    case LoadStep(key, ttl, tick) => BeginLoadKeeps(c, key, ttl, tick);
    case FinishStep(f, loaded, clock) => if f in c.owned { FinishKeeps(c, f, loaded, clock); }
  }

  /** No section removes a flight, changes what it was admitted with, or revokes
      its outcome, and only an admission adds an owned one. */
  lemma FlightsGrow(c: Cache, step: Step)
    requires Inv(c)
    ensures Grew(c, Apply(c, step))
  {
    hide Ordered, Valid, VersionsBounded, ActiveEpochs, Get, Purge, Write, Remove, Reset, EndFlight, SettledCore, Grew,
      Admitted;
    assert |c.flights| !in c.owned;
    match step
    case GetStep(key, tick) => GrewNothing(c, Apply(c, step));
    case SetStep(key, value, ttl, tick) => OrderedCore(c); WriteGrew(c, key, value, ttl, tick);
    case InvalidateStep(key, tick) => RemoveGrew(c, key, tick);
    case ClearStep(tick) => ResetGrew(c, tick);
    case PurgeStep(tick) => GrewNothing(c, Apply(c, step));
    case LoadStep(key, ttl, tick) =>
      var g := Read(c, key, tick).0;
      AdmittedGrew(c, g.(core := CountLoad(g.core)), key, ttl, 0, false);
      if !BeginLoad(c, key, ttl, tick).1.Owner? { GrewNothing(c, Apply(c, step)); }
    case FinishStep(f, loaded, clock) =>
      if f in c.owned { EndsGrew(c, f, loaded, clock); } else { GrewNothing(c, Apply(c, step)); }
  }

  lemma OrderedCore(c: Cache)
    requires Inv(c)
    ensures Ordered(c.core)
  {
  }

  lemma EndsGrew(c: Cache, f: nat, loaded: Outcome, clock: ClockRead)
    requires Inv(c) && f in c.owned
    ensures f < |c.flights| && Grew(c, Finish(c, f, loaded, clock))
  {
    hide Valid, VersionsBounded, ActiveEpochs, Grew, EndFlight, SettledCore;
    OrderedCore(c);
    var outcome := if CanPublish(c, f, loaded) && clock.ClockRaised? then Raised(clock.error) else loaded;
    EndFlightGrew(c, f, SettledCore(c, f, loaded, clock, CanPublish(c, f, loaded)), outcome);
  }

  lemma TightKept(c: Cache, step: Step)
    requires Inv(c) && Tight(c)
    ensures Tight(Apply(c, step))
  {
    hide Apply, Valid, VersionsBounded;
    ApplyKeeps(c, step);
    FlightsGrow(c, step);
    ActiveOnlyShrinks(c, step);
    var d := Apply(c, step);
    forall f | f in d.owned && f < |d.flights|
      ensures !d.flights[f].abandoned && (Active(d, f) ==> Current(d, f))
    {
    }
  }

  /** A section makes no old flight active, and a touched one inactive. */
  lemma ActiveOnlyShrinks(c: Cache, step: Step)
    requires Inv(c)
    ensures forall f | f in c.owned && f in Apply(c, step).owned && f < |c.flights| && Active(Apply(c, step), f) ::
      Active(c, f) && !TouchedBy(step).Has(c.flights[f].key)
  {
    hide Purge, Store, Valid, VersionsBounded, ActiveEpochs, Get, Invalidate, DropUnused, SettledCore;
    match step
    case GetStep(key, tick) =>
    case SetStep(key, value, ttl, tick) =>
    case InvalidateStep(key, tick) =>
    case ClearStep(tick) =>
    case PurgeStep(tick) =>
    case LoadStep(key, ttl, tick) =>
    case FinishStep(f, loaded, clock) =>
  }

  ghost function Run(maxSize: nat, maxInflight: nat, steps: seq<Step>): (c: Cache)
    requires maxSize >= 1
    ensures Inv(c) && Tight(c) && c.maxInflight == maxInflight && c.core.maxSize == maxSize
  {
    if steps == [] then New(maxSize, maxInflight)
    else
      var prior := Run(maxSize, maxInflight, steps[..|steps| - 1]);
      ApplyKeeps(prior, steps[|steps| - 1]);
      TightKept(prior, steps[|steps| - 1]);
      Apply(prior, steps[|steps| - 1])
  }

  /** A set, an invalidate or a clear has touched the flight's key since it was
      admitted. */
  ghost predicate TouchedSince(maxSize: nat, maxInflight: nat, steps: seq<Step>, f: nat)
    requires maxSize >= 1
  {
    steps != [] &&
    var init, last := steps[..|steps| - 1], steps[|steps| - 1];
    var prior := Run(maxSize, maxInflight, init);
    TouchedSince(maxSize, maxInflight, init, f) || (f < |prior.flights| && TouchedBy(last).Has(prior.flights[f].key))
  }

  lemma {:induction false} NotTouchedBeforeAdmission(maxSize: nat, maxInflight: nat, steps: seq<Step>, f: nat)
    requires maxSize >= 1 && f >= |Run(maxSize, maxInflight, steps).flights|
    ensures !TouchedSince(maxSize, maxInflight, steps, f)
  {
    hide Apply, Inv;
    if steps != [] {
      FlightsGrow(Run(maxSize, maxInflight, steps[..|steps| - 1]), steps[|steps| - 1]);
      NotTouchedBeforeAdmission(maxSize, maxInflight, steps[..|steps| - 1], f);
    }
  }

  /** In every run, an owned flight is current, active and not superseded, all
      three, if and only if nothing touched its key since its admission. */
  lemma {:induction false} CurrentIffUntouched(maxSize: nat, maxInflight: nat, steps: seq<Step>, f: nat)
    requires maxSize >= 1 && f in Run(maxSize, maxInflight, steps).owned
    ensures var c := Run(maxSize, maxInflight, steps);
      && f < |c.flights|
      && (Current(c, f) <==> !TouchedSince(maxSize, maxInflight, steps, f))
      && (Active(c, f) <==> !TouchedSince(maxSize, maxInflight, steps, f))
      && (c.flights[f].superseded <==> TouchedSince(maxSize, maxInflight, steps, f))
  {
    hide Apply, Valid, VersionsBounded;
    var init, last := steps[..|steps| - 1], steps[|steps| - 1];
    var prior := Run(maxSize, maxInflight, init);
    ApplyKeeps(prior, last);
    FlightsGrow(prior, last);
    if f in prior.owned {
      CurrentIffUntouched(maxSize, maxInflight, init, f);
    } else {
      NotTouchedBeforeAdmission(maxSize, maxInflight, init, f);
    }
  }

  // ----- publication -----

  /** A successful load is stored, with its own TTL, if and only if nothing touched
      its key since its admission; either way its outcome is the loaded value. */
  lemma PublishedIffUntouched(maxSize: nat, maxInflight: nat, steps: seq<Step>, f: nat, v: Val, tick: int)
    requires maxSize >= 1 && f in Run(maxSize, maxInflight, steps).owned
    ensures var c := Run(maxSize, maxInflight, steps);
      var d := Apply(c, FinishStep(f, Returned(v), Tick(tick)));
      && f < |c.flights| == |d.flights| && d.flights[f].outcome == Some(Returned(v)) && f !in d.owned
      && (!TouchedSince(maxSize, maxInflight, steps, f) ==>
            var key := c.flights[f].key;
            key in d.core.entries && d.core.entries[key].value == v
            && d.core.entries[key].expiresAt == ClampTick(c.core, tick).lastTick + c.flights[f].ttl)
      && (TouchedSince(maxSize, maxInflight, steps, f) ==>
            d.core.entries == c.core.entries && d.core.order == c.core.order && d.core.heap == c.core.heap)
  {
    hide SettledCore, Inv, Run, TouchedSince, Keys, DropUnused;
    var c := Run(maxSize, maxInflight, steps);
    CurrentIffUntouched(maxSize, maxInflight, steps, f);
    CanPublishIff(c, f, Returned(v));
    SettleFresh(c, f, Returned(v), Tick(tick), CanPublish(c, f, Returned(v)), SelfLedger(c.core));
  }

  /** However a load ends, its flight ends with it: with the load's own result or
      failure, except that a clock that fails while an untouched result is being stored
      becomes the failure of all its callers.  Nothing else is stored. */
  lemma OutcomeIff(maxSize: nat, maxInflight: nat, steps: seq<Step>, f: nat, loaded: Outcome, clock: ClockRead)
    requires maxSize >= 1 && f in Run(maxSize, maxInflight, steps).owned
    ensures var c := Run(maxSize, maxInflight, steps);
      var d := Apply(c, FinishStep(f, loaded, clock));
      var stores := loaded.Returned? && !TouchedSince(maxSize, maxInflight, steps, f);
      && f < |c.flights| == |d.flights| && f !in d.owned
      && d.flights[f].outcome == Some(if stores && clock.ClockRaised? then Raised(clock.error) else loaded)
      && (!stores || clock.ClockRaised? ==>
            d.core.entries == c.core.entries && d.core.order == c.core.order && d.core.heap == c.core.heap)
      && (forall g | 0 <= g < |c.flights| && g != f :: d.flights[g] == c.flights[g])
  {
    hide SettledCore, Inv, Run, TouchedSince, Keys, DropUnused;
    var c := Run(maxSize, maxInflight, steps);
    CurrentIffUntouched(maxSize, maxInflight, steps, f);
    CanPublishIff(c, f, loaded);
    SettleFresh(c, f, loaded, clock, CanPublish(c, f, loaded), SelfLedger(c.core));
  }

  function SelfLedger(s: State): (l: map<Key, Written>)
    ensures Fresh(s, l)
  {
    map k | k in s.entries :: Written(s.entries[k].value, s.entries[k].expiresAt)
  }

  // ----- what `get_or_load` answers -----

  /** The key has an entry that no due heap record removes. */
  ghost predicate Survives(s: State, key: Key, now: int) {
    key in s.entries && !CacheRefinement.HasDueMatch(s, key, now)
  }

  /** What a read finds, told from the entries and records before it. */
  lemma ReadIff(c: Cache, key: Key, tick: int)
    requires Inv(c)
    ensures var (d, r) := Read(c, key, tick);
      var now := if tick > c.core.lastTick then tick else c.core.lastTick;
      && (r.Some? <==> Survives(c.core, key, now))
      && (r.Some? ==> r.value == c.core.entries[key].value)
      && d.active == c.active && d.owned == c.owned && d.flights == c.flights && d.maxInflight == c.maxInflight
  {
    hide Purge, Ordered, HeapSorted, Numbered, Covered, CacheRefinement.HasDueMatch, VersionsBounded, FlightsConsistent;
    var n := ClampTick(c.core, tick);
    ValidTransfer(c.core, n);
    PurgeKeeps(n, n.lastTick, Keys(c));
    CacheRefinement.PurgeRemoves(n, n.lastTick, Keys(c));
    assert CacheRefinement.HasDueMatch(n, key, n.lastTick) == CacheRefinement.HasDueMatch(c.core, key, n.lastTick) by {
      SameDueMatch(c.core, n, key, n.lastTick);
    }
  }

  /** Whether an invalidate removed something, told from before the call. */
  lemma RemoveIff(c: Cache, key: Key, tick: int)
    requires Inv(c)
    ensures var now := if tick > c.core.lastTick then tick else c.core.lastTick;
      Remove(c, key, tick).1 <==> Survives(c.core, key, now)
  {
    hide Purge, Ordered, HeapSorted, Numbered, Covered, CacheRefinement.HasDueMatch, VersionsBounded, FlightsConsistent,
      Keys, Supersede;
    var n := ClampTick(c.core, tick);
    ValidTransfer(c.core, n);
    assert Supersede(Clamped(c, tick), key).core == n by { SupersedeCore(Clamped(c, tick), key); }
    CacheRefinement.PurgeRemoves(n, n.lastTick, Keys(Supersede(Clamped(c, tick), key)));
    SameDueMatch(c.core, n, key, n.lastTick);
  }

  lemma SupersedeCore(c: Cache, key: Key)
    ensures Supersede(c, key).core == c.core
  {
  }

  lemma SameDueMatch(s: State, t: State, key: Key, now: int)
    requires t.heap == s.heap && t.entries == s.entries
    ensures CacheRefinement.HasDueMatch(t, key, now) == CacheRefinement.HasDueMatch(s, key, now)
  {
    if CacheRefinement.HasDueMatch(s, key, now) {
      var r :| r in s.heap && r.key == key && r.expiresAt <= now && CacheRefinement.Matches(s, r);
      assert CacheRefinement.Matches(t, r);
    }
    if CacheRefinement.HasDueMatch(t, key, now) {
      var r :| r in t.heap && r.key == key && r.expiresAt <= now && CacheRefinement.Matches(t, r);
      assert CacheRefinement.Matches(s, r);
    }
  }

  /** An unfinished load of `key` that no set, invalidate or clear has touched since
      it was admitted. */
  ghost predicate Loading(maxSize: nat, maxInflight: nat, steps: seq<Step>, f: nat, key: Key)
    requires maxSize >= 1
  {
    var c := Run(maxSize, maxInflight, steps);
    && f < |c.flights| && c.flights[f].outcome.None? && c.flights[f].key == key
    && !TouchedSince(maxSize, maxInflight, steps, f)
  }

  /** The active table holds exactly the flights that are loading. */
  lemma ActiveIffLoading(maxSize: nat, maxInflight: nat, steps: seq<Step>, f: nat, key: Key)
    requires maxSize >= 1
    ensures var c := Run(maxSize, maxInflight, steps);
      Loading(maxSize, maxInflight, steps, f, key) <==> key in c.active && c.active[key] == f
  {
    hide Valid, VersionsBounded, ActiveEpochs, Run, TouchedSince;
    var c := Run(maxSize, maxInflight, steps);
    ActiveFacts(c);
    if f in c.owned { CurrentIffUntouched(maxSize, maxInflight, steps, f); }
  }

  /** One flight more, for this key and TTL, unfinished and on both tables. */
  predicate Admits(c: Cache, d: Cache, key: Key, ttl: int) {
    var id := |c.flights|;
    && |d.flights| == id + 1 && d.flights[..id] == c.flights
    && d.flights[id].key == key && d.flights[id].ttl == ttl && d.flights[id].outcome.None?
    && !d.flights[id].superseded && !d.flights[id].abandoned
    && d.active == c.active[key := id] && d.owned == c.owned + {id}
  }

  /** In every interleaving: a caller gets the value if its key's entry survives the
      purge; else it joins the load of its key that is under way; else it is turned
      away if `max_inflight` loads are owned; else it owns a new load.  Each answer is
      given in exactly that case. */
  lemma AnswersIff(maxSize: nat, maxInflight: nat, steps: seq<Step>, key: Key, ttl: int, tick: int)
    requires maxSize >= 1
    ensures var c := Run(maxSize, maxInflight, steps);
      var (d, reply) := BeginLoad(c, key, ttl, tick);
      var now := if tick > c.core.lastTick then tick else c.core.lastTick;
      var kept := Survives(c.core, key, now);
      var loading := exists f :: Loading(maxSize, maxInflight, steps, f, key);
      && (forall v :: reply == Hit(v) <==> kept && c.core.entries[key].value == v)
      && (forall f :: reply == Joined(f) <==> !kept && Loading(maxSize, maxInflight, steps, f, key))
      && (reply == Rejected <==> !kept && !loading && |c.owned| == maxInflight)
      && (forall f :: reply == Owner(f) <==> !kept && !loading && |c.owned| < maxInflight && f == |c.flights|)
      && (if reply.Owner? then Admits(c, d, key, ttl) else SameFlights(c, d))
  {
    hide Read, Inv, Run, Loading, Survives;
    var c := Run(maxSize, maxInflight, steps);
    ReadIff(c, key, tick);
    InvBounded(c);
    forall f ensures Loading(maxSize, maxInflight, steps, f, key) <==> key in c.active && c.active[key] == f {
      ActiveIffLoading(maxSize, maxInflight, steps, f, key);
    }
    if key in c.active { assert Loading(maxSize, maxInflight, steps, c.active[key], key); }
  }

  // ----- one outcome for every coalesced caller -----

  /** A caller that joins, joins an unfinished flight of its own key that no
      mutation has touched since its admission. */
  lemma JoinsLiveFlight(maxSize: nat, maxInflight: nat, steps: seq<Step>, key: Key, ttl: int, tick: int)
    requires maxSize >= 1
    ensures var c := Run(maxSize, maxInflight, steps);
      var (d, reply) := BeginLoad(c, key, ttl, tick);
      reply.Joined? ==>
        && reply.flight in c.owned && reply.flight < |c.flights| && c.flights[reply.flight].key == key
        && c.flights[reply.flight].outcome.None? && !TouchedSince(maxSize, maxInflight, steps, reply.flight)
        && d.flights == c.flights
  {
    hide Purge, Store, Valid, VersionsBounded, Get, Run, TouchedSince;
    var c := Run(maxSize, maxInflight, steps);
    var (d, reply) := BeginLoad(c, key, ttl, tick);
    if reply.Joined? {
      ActiveFacts(c);
      CurrentIffUntouched(maxSize, maxInflight, steps, reply.flight);
    }
  }

  /** Once a flight is terminal its outcome never changes, so every caller that
      waited on it reads the same one. */
  lemma {:induction false} OutcomeFixed(maxSize: nat, maxInflight: nat, steps: seq<Step>, i: nat, f: nat)
    requires maxSize >= 1 && i <= |steps|
    requires f < |Run(maxSize, maxInflight, steps[..i]).flights|
    requires Run(maxSize, maxInflight, steps[..i]).flights[f].outcome.Some?
    ensures f < |Run(maxSize, maxInflight, steps).flights|
    ensures Run(maxSize, maxInflight, steps).flights[f].outcome ==
        Run(maxSize, maxInflight, steps[..i]).flights[f].outcome
  {
    hide Apply, Inv;
    if i == |steps| {
      assert steps[..i] == steps;
    } else {
      var init := steps[..|steps| - 1];
      assert init[..i] == steps[..i];
      OutcomeFixed(maxSize, maxInflight, init, i, f);
      FlightsGrow(Run(maxSize, maxInflight, init), steps[|steps| - 1]);
    }
  }

  // ----- freshness -----

  /** What a caller of the API may expect to read: the last set, or the last load
      that nothing touched, and its deadline on the clamped clock. */
  ghost function Ledger(maxSize: nat, maxInflight: nat, steps: seq<Step>): map<Key, Written>
    requires maxSize >= 1
  {
    if steps == [] then map[]
    else
      var init, last := steps[..|steps| - 1], steps[|steps| - 1];
      var prior := Run(maxSize, maxInflight, init);
      var now := Run(maxSize, maxInflight, steps).core.lastTick;
      var ledger := Ledger(maxSize, maxInflight, init);
      match last
      case SetStep(key, value, ttl, _) => ledger[key := Written(value, now + ttl)]
      case InvalidateStep(key, _) => ledger - {key}
      case ClearStep(_) => map[]
      case FinishStep(f, loaded, clock) =>
        if f in prior.owned && f < |prior.flights| && loaded.Returned? && clock.Tick?
           && !TouchedSince(maxSize, maxInflight, init, f)
        then ledger[prior.flights[f].key := Written(loaded.value, now + prior.flights[f].ttl)]
        else ledger
      case _ => ledger
  }

  lemma {:induction false} RunFresh(maxSize: nat, maxInflight: nat, steps: seq<Step>)
    requires maxSize >= 1
    ensures Fresh(Run(maxSize, maxInflight, steps).core, Ledger(maxSize, maxInflight, steps))
  {
    hide Inv, TouchedSince, Fresh, Read, Write, Remove, Purged, Settle;
    if steps == [] {
      NothingFresh(Initial(maxSize));
    } else {
      var init, last := steps[..|steps| - 1], steps[|steps| - 1];
      RunFresh(maxSize, maxInflight, init);
      var c, l := Run(maxSize, maxInflight, init), Ledger(maxSize, maxInflight, init);
      match last
      case GetStep(key, tick) => ReadFresh(c, key, tick, l);
      case SetStep(key, value, ttl, tick) => WriteFresh(c, key, value, ttl, tick, l);
      case InvalidateStep(key, tick) => RemoveFresh(c, key, tick, l);
      case ClearStep(tick) => NothingFresh(Apply(c, last).core);
      case PurgeStep(tick) => PurgedFresh(c, tick, l);
      case LoadStep(key, ttl, tick) => ReadFresh(c, key, tick, l);
        SameEntriesFresh(Read(c, key, tick).0.core, Apply(c, last).core, l);
      case FinishStep(f, loaded, clock) =>
        if f in c.owned {
          CurrentIffUntouched(maxSize, maxInflight, init, f);
          CanPublishIff(c, f, loaded);
          SettleFresh(c, f, loaded, clock, CanPublish(c, f, loaded), l);
        }

    }
  }

  lemma NothingFresh(s: State)
    ensures s.entries == map[] ==> Fresh(s, map[])
  {
  }

  lemma SameEntriesFresh(s: State, t: State, l: map<Key, Written>)
    requires Fresh(s, l) && t.entries == s.entries
    ensures Fresh(t, l)
  {
  }

  /** A hit, by `get` or `get_or_load` and in every interleaving, returns the value
      the ledger holds, before its deadline on a clock that never runs back. */
  lemma HitIsFresh(maxSize: nat, maxInflight: nat, steps: seq<Step>, key: Key, tick: int)
    requires maxSize >= 1
    ensures var c := Run(maxSize, maxInflight, steps);
      var (d, r) := Read(c, key, tick);
      r.Some? ==>
        && d.core.lastTick >= tick && d.core.lastTick >= c.core.lastTick
        && key in Ledger(maxSize, maxInflight, steps)
        && Ledger(maxSize, maxInflight, steps)[key].value == r.value
        && Ledger(maxSize, maxInflight, steps)[key].expiresAt > d.core.lastTick
  {
    hide Inv, Run, Ledger, Fresh, Read;
    RunFresh(maxSize, maxInflight, steps);
    ReadFresh(Run(maxSize, maxInflight, steps), key, tick, Ledger(maxSize, maxInflight, steps));
  }

  /** After every section of every run the tables are within their limits. */
  lemma RunBounded(maxSize: nat, maxInflight: nat, steps: seq<Step>)
    requires maxSize >= 1
    ensures var c := Run(maxSize, maxInflight, steps);
      && |c.core.entries| <= maxSize && |c.core.heap| <= 2 * maxSize
      && |c.owned| <= maxInflight
      && |c.core.versions| <= maxSize + maxInflight
  {
    hide Inv, Run;
    InvBounded(Run(maxSize, maxInflight, steps));
  }
}
