/** The asynchronous loading cache.  No section awaits while it holds the lock, so
    each section is one atomic step.  A flight's load runs in a task of its own
    and its callers wait on that task; a task is done exactly when its completing
    section has run, because nothing awaits in between. */
module AsyncCache {
  import opened Wrappers
  import opened CacheCore
  import opened CacheInvariants
  import opened Flights
  import SyncCache

  datatype LoadReply = Hit(value: Val) | Waits(flight: nat) | Rejected | TaskFailed

  function Waiting(c: Cache, f: nat, change: int): Cache
    requires f < |c.flights|
  {
    c.(flights := c.flights[f := c.flights[f].(waiters := c.flights[f].waiters + change)])
  }

  /** The locked part of `get_or_load`; `taskError` is what creating the loader
      task raised, if it did. */
  function BeginLoad(c: Cache, key: Key, ttl: int, tick: int, taskError: Option<Failure>): (Cache, LoadReply) {
    var (g, found) := Read(c, key, tick);
    if found.Some? then (g, Hit(found.value))
    else if key in g.active && g.active[key] < |g.flights| then
      (Waiting(g, g.active[key], 1).(core := SyncCache.CountJoin(g.core)), Waits(g.active[key]))
    else if |g.owned| >= g.maxInflight then (g.(core := SyncCache.CountReject(g.core)), Rejected)
    else if taskError.Some? then
      var a := Admitted(g, NewFlight(g.core, key, ttl, 1, false));
      (EndFlight(a, |g.flights|, a.core, Raised(taskError.value)), TaskFailed)
    else
      (Admitted(g.(core := SyncCache.CountLoad(g.core)), NewFlight(g.core, key, ttl, 1, true)), Waits(|g.flights|))
  }

  predicate CanPublish(c: Cache, f: nat)
    requires f < |c.flights|
  {
    var flight := c.flights[f];
    && !flight.abandoned
    && !flight.superseded
    && c.core.clearEpoch == flight.epoch
    && Version(c.core, flight.key) == flight.version
    && flight.key in c.active && c.active[flight.key] == f
  }

  /** The completing section of the loader task. */
  function Complete(c: Cache, f: nat, loaded: Outcome, clock: ClockRead): Cache
    requires Ordered(c.core) && f < |c.flights|
  {
    Settle(c, f, loaded, clock, loaded.Returned? && CanPublish(c, f))
  }

  /** Flight `f` gives up: marked, off the active table, its key's version bumped. */
  function Abandon(c: Cache, f: nat): Cache
    requires f < |c.flights|
  {
    var key := c.flights[f].key;
    Cache(
      BumpVersion(c.core, key),
      c.maxInflight,
      if key in c.active && c.active[key] == f then c.active - {key} else c.active,
      c.owned,
      c.flights[f := c.flights[f].(abandoned := true)])
  }

  /** `_release_waiter_locked`: one waiter fewer; the reply says whether to cancel
      the loader task. */
  function Release(c: Cache, f: nat): (Cache, bool)
    requires f < |c.flights|
  {
    var n := Waiting(c, f, -1);
    if n.flights[f].waiters != 0 || f !in n.owned then (n, false) else (Abandon(n, f), true)
  }

  // ----- each section keeps the shared invariant -----

  lemma WaitingKeeps(c: Cache, f: nat, change: int)
    requires Inv(c) && f < |c.flights|
    ensures var d := Waiting(c, f, change);
      && Inv(d) && CurrentKept(c, d, Nothing) && SameLimits(c, d)
      && d.core == c.core && d.owned == c.owned && d.active == c.active && Keys(d) == Keys(c)
  {
    hide Valid;
    var d := Waiting(c, f, change);
    assert forall g | 0 <= g < |c.flights| :: d.flights[g] == c.flights[g].(waiters := d.flights[g].waiters);
    assert Keys(d) == Keys(c);
  }

  /** Marking an owned flight abandoned and taking it off the active table. */
  lemma MarkAbandonedKeeps(c: Cache, f: nat)
    requires Inv(c) && f in c.owned && f < |c.flights|
    ensures var d := Abandon(c, f).(core := c.core);
      Inv(d)
  {
    hide Valid;
    var d := Abandon(c, f).(core := c.core);
    assert forall g | 0 <= g < |c.flights| :: d.flights[g].key == c.flights[g].key;
    assert Keys(d) == Keys(c);
  }

  lemma AbandonKeeps(c: Cache, f: nat)
    requires Inv(c) && f in c.owned && f < |c.flights|
    ensures var d := Abandon(c, f);
      Inv(d) && CurrentKept(c, d, OneKey(c.flights[f].key)) && SameLimits(c, d) && d.owned == c.owned
  {
    hide Valid, VersionsBounded;
    MarkAbandonedKeeps(c, f);
    var m := Abandon(c, f).(core := c.core);
    var key := c.flights[f].key;
    ActiveFacts(m);
    assert key in Keys(m);
    BumpOwnedKeeps(m, key);
    assert Abandon(c, f) == m.(core := BumpVersion(m.core, key));
    var d := Abandon(c, f);
    forall g | g in c.owned && g in d.owned && g < |c.flights|
      ensures Current(d, g) <==> Current(c, g) && !OneKey(key).Has(c.flights[g].key)
    {
      assert d.flights[g].key == c.flights[g].key;
    }
  }

  lemma ReleaseKeeps(c: Cache, f: nat)
    requires Inv(c) && f < |c.flights|
    ensures var (d, cancel) := Release(c, f);
      && Inv(d) && SameLimits(c, d) && d.owned == c.owned
      && CurrentKept(c, d, if cancel then OneKey(c.flights[f].key) else Nothing)
  {
    hide Inv;
    WaitingKeeps(c, f, -1);
    var n := Waiting(c, f, -1);
    if f in n.owned { AbandonKeeps(n, f); }
    assert forall g | 0 <= g < |c.flights| :: n.flights[g].key == c.flights[g].key;
  }

  lemma KeptAlong(c: Cache, g: Cache, d: Cache)
    requires CurrentKept(c, g, Nothing) && CurrentKept(g, d, Nothing) && c.owned <= g.owned &&
        |c.flights| <= |g.flights|
    requires FlightsConsistent(c)
    ensures CurrentKept(c, d, Nothing)
  {
  }

  lemma BeginLoadKeeps(c: Cache, key: Key, ttl: int, tick: int, taskError: Option<Failure>)
    requires Inv(c)
    ensures var d := BeginLoad(c, key, ttl, tick, taskError).0;
      Inv(d) && CurrentKept(c, d, Nothing) && SameLimits(c, d)
  {
    hide Inv, Read, CurrentKept, FlightsConsistent, Keys, Waiting, EndFlight;
    InvParts(c);
    ReadKeeps(c, key, tick);
    var g := Read(c, key, tick).0;
    InvParts(g);
    var d := BeginLoad(c, key, ttl, tick, taskError).0;
    if Read(c, key, tick).1.Some? {
    } else if key in g.active {
      ActiveFacts(g);
      WaitingKeeps(g, g.active[key], 1);
      SyncCache.CountedKeeps(Waiting(g, g.active[key], 1), SyncCache.CountJoin(g.core));
      KeptAlong(c, g, Waiting(g, g.active[key], 1));
      KeptAlong(c, Waiting(g, g.active[key], 1), d) by { WaitingLength(g, g.active[key], 1); }
    } else if |g.owned| >= g.maxInflight {
      SyncCache.CountedKeeps(g, SyncCache.CountReject(g.core));
      KeptAlong(c, g, d);
    } else if taskError.Some? {
      var a := Admitted(g, NewFlight(g.core, key, ttl, 1, false));
      AdmittedKeeps(g, NewFlight(g.core, key, ttl, 1, false));
      InvParts(a);
      EndFlightKeeps(a, |g.flights|, a.core, Raised(taskError.value));
      KeptAlong(c, g, a);
      KeptAlong(c, a, d);
    } else {
      SyncCache.CountedKeeps(g, SyncCache.CountLoad(g.core));
      var h := g.(core := SyncCache.CountLoad(g.core));
      AdmittedKeeps(h, NewFlight(g.core, key, ttl, 1, true));
      KeptAlong(c, g, h);
      KeptAlong(c, h, d);
    }
  }

  lemma WaitingLength(c: Cache, f: nat, change: int)
    requires f < |c.flights|
    ensures |Waiting(c, f, change).flights| == |c.flights|
  {
  }

  /** While a flight is owned it may publish exactly when it is current. */
  lemma CanPublishIff(c: Cache, f: nat)
    requires Inv(c) && f in c.owned
    ensures f < |c.flights|
    ensures CanPublish(c, f) <==> Current(c, f)
  {
    hide Valid, VersionsBounded;
  }

  lemma CompleteKeeps(c: Cache, f: nat, loaded: Outcome, clock: ClockRead)
    requires Inv(c) && f in c.owned
    ensures f < |c.flights|
    ensures var d := Complete(c, f, loaded, clock);
      && Inv(d) && CurrentKept(c, d, Nothing) && SameLimits(c, d) && d.owned == c.owned - {f}
  {
    hide Inv, CurrentKept, Settle, CanPublish, SameLimits;
    CanPublishIff(c, f);
    SettleKeeps(c, f, loaded, clock, loaded.Returned? && CanPublish(c, f));
  }
}
