/** The cache state as the program keeps it: one object whose fields the
    operations update in place.  Each method's new state is the one given by the
    function of the same name in `CacheCore`. */
module CacheStateObject {
  import opened Wrappers
  import opened CacheCore
  import opened CacheInvariants

  class CacheState {
    const maxSize: nat
    var entries: map<Key, Entry>
    var order: seq<Key>
    var expiryHeap: seq<Record>
    var keyVersions: map<Key, nat>
    var clearEpoch: nat
    var lastTick: int
    var sequence: nat
    var counters: Counters

    function View(): State reads this {
      State(maxSize, entries, order, expiryHeap, keyVersions, clearEpoch, lastTick, sequence, counters)
    }

    constructor (maxSize: nat)
      requires maxSize >= 1
      ensures View() == Initial(maxSize) && Valid(View())
    {
      this.maxSize := maxSize;
      entries, order, expiryHeap, keyVersions := map[], [], [], map[];
      clearEpoch, lastTick, sequence, counters := 0, 0, 0, ZeroCounters;
    }

    method ClampTick(tick: int) returns (now: int)
      modifies this
      ensures View() == CacheCore.ClampTick(old(View()), tick)
      ensures now == lastTick && now >= tick && now >= old(lastTick)
    {
      if tick > lastTick { lastTick := tick; }
      now := lastTick;
    }

    method BumpVersion(key: Key) returns (version: nat)
      modifies this
      ensures View() == CacheCore.BumpVersion(old(View()), key)
      ensures version == old(Version(View(), key)) + 1
    {
      version := (if key in keyVersions then keyVersions[key] else 0) + 1;
      keyVersions := keyVersions[key := version];
    }

    method DropUnusedVersion(key: Key, ownedKeys: set<Key>)
      modifies this
      ensures View() == DropUnused(old(View()), key, ownedKeys)
    {
      if key !in entries && key !in ownedKeys {
        keyVersions := keyVersions - {key};
      }
    }

    method PurgeExpired(now: int, ownedKeys: set<Key>)
      modifies this
      ensures View() == Purge(old(View()), now, ownedKeys)
    {
      while expiryHeap != [] && expiryHeap[0].expiresAt <= now
        invariant Purge(View(), now, ownedKeys) == Purge(old(View()), now, ownedKeys)
        decreases |expiryHeap|
      {
        ghost var before := View();
        var r := expiryHeap[0];
        expiryHeap := expiryHeap[1..];
        if r.key !in entries || entries[r.key].version != r.version {
          assert View() == PopRecord(before, ownedKeys);
          continue;
        }
        entries, order := entries - {r.key}, Without(order, r.key);
        counters := counters.(expirations := counters.expirations + 1);
        DropUnusedVersion(r.key, ownedKeys);
        assert View() == PopRecord(before, ownedKeys);
      }
    }

    method Get(key: Key, now: int, ownedKeys: set<Key>) returns (found: Option<Val>)
      modifies this
      ensures (View(), found) == CacheCore.Get(old(View()), key, now, ownedKeys)
    {
      PurgeExpired(now, ownedKeys);
      if key !in entries {
        counters := counters.(misses := counters.misses + 1);
        return None;
      }
      order := MoveToEnd(order, key);
      counters := counters.(hits := counters.hits + 1);
      found := Some(entries[key].value);
    }

    method Store(key: Key, value: Val, ttl: int, now: int, ownedKeys: set<Key>)
      requires Valid(View())
      modifies this
      ensures View() == CacheCore.Store(old(View()), key, value, ttl, now, ownedKeys)
      ensures Valid(View())
    {
      hide Ordered, HeapSorted, Numbered, Covered, HasRecord, Purge, Without, Push, Rebuild, CacheCore.Store;
      ghost var start := View();
      StoreSteps(start, key, value, ttl, now, ownedKeys);
      StoreValid(start, key, value, ttl, now, ownedKeys);
      PurgeExpired(now, ownedKeys);
      var version := BumpVersion(key);
      var expiresAt := now + ttl;
      entries := entries[key := Entry(value, expiresAt, version)];
      order := MoveToEnd(order, key);
      sequence := sequence + 1;
      expiryHeap := Push(expiryHeap, Record(expiresAt, sequence, key, version));
      ghost var inserted := Insert(Purge(start, now, ownedKeys), key, value, now + ttl);
      assert View() == inserted;
      while |order| > maxSize
        invariant Ordered(View()) && Evict(View(), ownedKeys) == Evict(inserted, ownedKeys)
        decreases |order|
      {
        ghost var before := View();
        var evicted := order[0];
        EvictOneOrdered(before, ownedKeys);
        entries, order := entries - {evicted}, order[1..];
        counters := counters.(evictions := counters.evictions + 1);
        DropUnusedVersion(evicted, ownedKeys);
        assert View() == EvictOne(before, ownedKeys);
      }
      if |expiryHeap| > 2 * maxSize {
        RebuildExpiryHeap();
      }
    }

    method RebuildExpiryHeap()
      requires Ordered(View())
      modifies this
      ensures View() == Rebuild(old(View()))
    {
      var rebuilt: seq<Record> := [];
      var i := 0;
      while i < |order|
        invariant 0 <= i <= |order|
        invariant View() == old(View()).(sequence := old(sequence) + i)
        invariant rebuilt == LiveRecords(entries, order[..i], old(sequence))
      {
        var key := order[i];
        sequence := sequence + 1;
        rebuilt := rebuilt + [Record(entries[key].expiresAt, sequence, key, entries[key].version)];
        i := i + 1;
        assert order[..i][..|order[..i]| - 1] == order[..i - 1];
      }
      assert order[..i] == order;
      expiryHeap := Heapify(rebuilt);
    }

    /** `ownedKeys` is what the caller's supersede callback returned. */
    method Invalidate(key: Key, now: int, ownedKeys: set<Key>) returns (removed: bool)
      modifies this
      ensures (View(), removed) == CacheCore.Invalidate(old(View()), key, now, ownedKeys)
    {
      PurgeExpired(now, ownedKeys);
      removed := key in entries;
      entries, order := entries - {key}, Without(order, key);
      var _ := BumpVersion(key);
      if removed {
        counters := counters.(invalidations := counters.invalidations + 1);
      }
      DropUnusedVersion(key, ownedKeys);
    }

    method Clear(ownedKeys: set<Key>)
      modifies this
      ensures View() == CacheCore.Clear(old(View()), ownedKeys)
    {
      clearEpoch := clearEpoch + 1;
      entries, order := map[], [];
      expiryHeap := [];
      keyVersions := map k | k in keyVersions && k in ownedKeys :: keyVersions[k];
    }

    method Size(now: int, ownedKeys: set<Key>) returns (size: nat)
      modifies this
      ensures View() == Purge(old(View()), now, ownedKeys) && size == |entries|
    {
      PurgeExpired(now, ownedKeys);
      size := |entries|;
    }
  }
}
