/** The asynchronous cache object.  Every method is one section under the cache
    lock; its new state is the one specified in `Flights` and `AsyncCache`. */
module AsyncTTLCacheObject {
  import opened Wrappers
  import opened CacheCore
  import opened CacheInvariants
  import opened CacheStateObject
  import opened Flights
  import AsyncCache

  class AsyncTTLCache {
    const maxInflight: nat
    const state: CacheState
    var activeFlights: map<Key, nat>
    var ownedFlights: set<nat>
    var flights: seq<Flight>

    function View(): Cache reads this, state {
      Cache(state.View(), maxInflight, activeFlights, ownedFlights, flights)
    }

    constructor (maxSize: nat, maxInflight: nat)
      requires maxSize >= 1
      ensures View() == New(maxSize, maxInflight) && fresh(state)
      ensures Inv(View())
    {
      this.maxInflight := maxInflight;
      state := new CacheState(maxSize);
      activeFlights, ownedFlights, flights := map[], {}, [];
    }

    function OwnedFlightKeys(): set<Key> reads this {
      OwnedKeys(ownedFlights, flights)
    }

    method EndFlight(f: nat, outcome: Outcome)
      requires f < |flights|
      modifies this, state
      ensures View() == Flights.EndFlight(old(View()), f, old(state.View()), outcome)
    {
      var key := flights[f].key;
      if key in activeFlights && activeFlights[key] == f {
        activeFlights := activeFlights - {key};
      }
      ownedFlights := ownedFlights - {f};
      flights := flights[f := flights[f].(outcome := Some(outcome))];
      state.DropUnusedVersion(key, OwnedFlightKeys());
    }

    /** A new flight with one waiter and no task yet, active and owned. */
    method Admit(key: Key, ttl: int) returns (f: nat)
      modifies this
      ensures View() == Admitted(old(View()), NewFlight(old(state.View()), key, ttl, 1, false))
      ensures f == |old(flights)|
    {
      var version := if key in state.keyVersions then state.keyVersions[key] else 0;
      f := |flights|;
      flights := flights + [Flight(key, state.clearEpoch, version, ttl, false, false, 1, false, None)];
      activeFlights := activeFlights[key := f];
      ownedFlights := ownedFlights + {f};
    }

    /** The locked part of `get_or_load`. */
    method BeginLoad(key: Key, ttl: int, tick: int, taskError: Option<Failure>) returns (reply: AsyncCache.LoadReply)
      requires Inv(View())
      modifies this, state
      ensures (View(), reply) == AsyncCache.BeginLoad(old(View()), key, ttl, tick, taskError) && Inv(View())
    {
      hide Valid, Inv, Read, Get, Keys, FlightsConsistent, Flights.EndFlight, ActiveEpochs, VersionsBounded;
      AsyncCache.BeginLoadKeeps(View(), key, ttl, tick, taskError);
      ReadKeeps(View(), key, tick);
      InvParts(View());
      ActiveFacts(View());
      ReadSteps(View(), key, tick);
      var now := state.ClampTick(tick);
      var found := state.Get(key, now, OwnedFlightKeys());
      if found.Some? { return AsyncCache.Hit(found.value); }
      if key in activeFlights {
        var f := activeFlights[key];
        flights := flights[f := flights[f].(waiters := flights[f].waiters + 1)];
        state.counters := state.counters.(coalescedWaiters := state.counters.coalescedWaiters + 1);
        return AsyncCache.Waits(f);
      }
      if |ownedFlights| >= maxInflight {
        state.counters := state.counters.(loadRejections := state.counters.loadRejections + 1);
        return AsyncCache.Rejected;
      }
      var f := Admit(key, ttl);
      if taskError.Some? {
        EndFlight(f, Raised(taskError.value));
        return AsyncCache.TaskFailed;
      }
      flights := flights[f := flights[f].(task := true)];
      assert flights == old(flights) + [flights[f]];
      state.counters := state.counters.(loads := state.counters.loads + 1);
      reply := AsyncCache.Waits(f);
    }

    /** `_release_waiter_locked`; `cancel` tells the caller to cancel the loader. */
    method ReleaseWaiter(f: nat) returns (cancel: bool)
      requires Inv(View()) && f < |flights|
      modifies this, state
      ensures (View(), cancel) == AsyncCache.Release(old(View()), f) && Inv(View())
    {
      AsyncCache.ReleaseKeeps(View(), f);
      flights := flights[f := flights[f].(waiters := flights[f].waiters - 1)];
      if flights[f].waiters != 0 || f !in ownedFlights { return false; }
      var key := flights[f].key;
      flights := flights[f := flights[f].(abandoned := true)];
      if key in activeFlights && activeFlights[key] == f {
        activeFlights := activeFlights - {key};
      }
      var _ := state.BumpVersion(key);
      cancel := true;
    }

    /** The completing section of the loader task. */
    method CompleteFlight(f: nat, loaded: Outcome, clock: ClockRead)
      requires Inv(View()) && f in ownedFlights
      modifies this, state
      ensures f < |old(flights)| && View() == AsyncCache.Complete(old(View()), f, loaded, clock) && Inv(View())
    {
      hide Ordered, HeapSorted, Numbered, Covered, Store, Inv, VersionsBounded, ActiveEpochs, DropUnused;
      InvParts(View());
      AsyncCache.CompleteKeeps(View(), f, loaded, clock);
      var flight := flights[f];
      var outcome := loaded;
      match loaded
      case Raised(_) =>
        state.counters := state.counters.(loadFailures := state.counters.loadFailures + 1);
        EndFlight(f, outcome);
      case Returned(value) =>
        var version := if flight.key in state.keyVersions then state.keyVersions[flight.key] else 0;
        var publish :=
          && !flight.abandoned
          && !flight.superseded
          && state.clearEpoch == flight.epoch
          && version == flight.version
          && flight.key in activeFlights && activeFlights[flight.key] == f;
        if publish {
          match clock
          case Tick(tick) =>
            var now := state.ClampTick(tick);
            ValidTransfer(old(View()).core, state.View());
            state.Store(flight.key, value, flight.ttl, now, OwnedFlightKeys());
          case ClockRaised(error) =>
            outcome := Raised(error);
        }
        assert state.View() == SettledCore(old(View()), f, loaded, clock, publish);
        EndFlight(f, outcome);
    }
  }
}
