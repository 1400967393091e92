/** The synchronous cache object.  Every method is one section under the cache
    lock; its new state is the one specified in `Flights` and `SyncCache`. */
module TTLCacheObject {
  import opened Wrappers
  import opened CacheCore
  import opened CacheInvariants
  import opened CacheStateObject
  import opened Flights
  import SyncCache

  class TTLCache {
    const maxInflight: nat
    const state: CacheState
    var activeFlights: map<Key, nat>
    var ownedFlights: set<nat>
    var flights: seq<Flight>

    function View(): Cache reads this, state {
      Cache(state.View(), maxInflight, activeFlights, ownedFlights, flights)
    }

    constructor (maxSize: nat, maxInflight: nat)
      requires maxSize >= 1
      ensures View() == New(maxSize, maxInflight) && fresh(state)
      ensures Inv(View())
    {
      this.maxInflight := maxInflight;
      state := new CacheState(maxSize);
      activeFlights, ownedFlights, flights := map[], {}, [];
    }

    function OwnedFlightKeys(): set<Key> reads this {
      OwnedKeys(ownedFlights, flights)
    }

    method Get(key: Key, tick: int) returns (found: Option<Val>)
      modifies this, state
      ensures (View(), found) == Read(old(View()), key, tick)
    {
      var now := state.ClampTick(tick);
      found := state.Get(key, now, OwnedFlightKeys());
    }

    method SupersedeFlight(key: Key) returns (ownedKeys: set<Key>)
      requires FlightsConsistent(View())
      modifies this
      ensures View() == Supersede(old(View()), key) && ownedKeys == Keys(View())
    {
      if key in activeFlights {
        var f := activeFlights[key];
        activeFlights := activeFlights - {key};
        flights := flights[f := flights[f].(superseded := true)];
      }
      ownedKeys := OwnedFlightKeys();
    }

    method Set(key: Key, value: Val, ttl: int, tick: int)
      requires Inv(View())
      modifies this, state
      ensures View() == Write(old(View()), key, value, ttl, tick) && Inv(View())
    {
      hide Ordered, HeapSorted, Numbered, Covered, Store, Inv;
      WriteKeeps(View(), key, value, ttl, tick);
      InvParts(View());
      var ownedKeys := SupersedeFlight(key);
      var now := state.ClampTick(tick);
      ValidTransfer(old(View()).core, state.View());
      state.Store(key, value, ttl, now, ownedKeys);
    }

    method InvalidateKey(key: Key, tick: int) returns (removed: bool)
      requires Inv(View())
      modifies this, state
      ensures (View(), removed) == Remove(old(View()), key, tick) && Inv(View())
    {
      hide Valid, Invalidate, ActiveEpochs, VersionsBounded;
      RemoveKeeps(View(), key, tick);
      var now := state.ClampTick(tick);
      var ownedKeys := SupersedeFlight(key);
      removed := state.Invalidate(key, now, ownedKeys);
    }

    method ClearAll(tick: int)
      requires Inv(View())
      modifies this, state
      ensures View() == Reset(old(View()), tick) && Inv(View())
    {
      hide Ordered, HeapSorted, Numbered, Covered, Clear, Inv, FlightsConsistent;
      ResetKeeps(View(), tick);
      InvParts(View());
      var _ := state.ClampTick(tick);
      flights := SupersedeAll(activeFlights, flights);
      activeFlights := map[];
      SupersededKeys(old(View()));
      state.Clear(OwnedFlightKeys());
    }

    method Size(tick: int) returns (size: nat)
      requires Inv(View())
      modifies this, state
      ensures View() == Purged(old(View()), tick) && Inv(View()) && size == |View().core.entries|
    {
      PurgedKeeps(View(), tick);
      var now := state.ClampTick(tick);
      size := state.Size(now, OwnedFlightKeys());
    }

    /** `get_or_load` up to the release of the lock. */
    method BeginLoad(key: Key, ttl: int, tick: int) returns (reply: SyncCache.LoadReply)
      requires Inv(View())
      modifies this, state
      ensures (View(), reply) == SyncCache.BeginLoad(old(View()), key, ttl, tick) && Inv(View())
    {
      hide Valid, Inv, CacheCore.Get;
      SyncCache.BeginLoadKeeps(View(), key, ttl, tick);
      var found := Get(key, tick);
      if found.Some? { return SyncCache.Hit(found.value); }
      if key in activeFlights {
        state.counters := state.counters.(coalescedWaiters := state.counters.coalescedWaiters + 1);
        return SyncCache.Joined(activeFlights[key]);
      }
      if |ownedFlights| >= maxInflight {
        state.counters := state.counters.(loadRejections := state.counters.loadRejections + 1);
        return SyncCache.Rejected;
      }
      var version := if key in state.keyVersions then state.keyVersions[key] else 0;
      var flight := Flight(key, state.clearEpoch, version, ttl, false, false, 0, false, None);
      reply := SyncCache.Owner(|flights|);
      activeFlights := activeFlights[key := |flights|];
      ownedFlights := ownedFlights + {|flights|};
      flights := flights + [flight];
      state.counters := state.counters.(loads := state.counters.loads + 1);
    }

    /** `_finish_flight`: publish if allowed, settle the outcome, drop the flight. */
    method FinishFlight(f: nat, loaded: Outcome, clock: ClockRead)
      requires Inv(View()) && f in ownedFlights
      modifies this, state
      ensures f < |old(flights)| && View() == SyncCache.Finish(old(View()), f, loaded, clock) && Inv(View())
    {
      hide Ordered, HeapSorted, Numbered, Covered, Store, Inv, VersionsBounded, ActiveEpochs;
      InvParts(View());
      SyncCache.FinishKeeps(View(), f, loaded, clock);
      var flight := flights[f];
      var outcome := loaded;
      var version := if flight.key in state.keyVersions then state.keyVersions[flight.key] else 0;
      var canPublish :=
        && loaded.Returned?
        && !flight.superseded
        && state.clearEpoch == flight.epoch
        && version == flight.version
        && flight.key in activeFlights && activeFlights[flight.key] == f;
      if canPublish {
        match clock
        case Tick(tick) =>
          var now := state.ClampTick(tick);
          ValidTransfer(old(View()).core, state.View());
          state.Store(flight.key, loaded.value, flight.ttl, now, OwnedFlightKeys());
        case ClockRaised(error) =>
          outcome := Raised(error);
      }
      if loaded.Raised? {
        state.counters := state.counters.(loadFailures := state.counters.loadFailures + 1);
      }
      flights := flights[f := flight.(outcome := Some(outcome))];
      if flight.key in activeFlights && activeFlights[flight.key] == f {
        activeFlights := activeFlights - {flight.key};
      }
      ownedFlights := ownedFlights - {f};
      state.DropUnusedVersion(flight.key, OwnedFlightKeys());
    }
  }
}
