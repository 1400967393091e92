/** The lock-protected state of the local TTL/LRU cache: an insertion-ordered
    entry table, a lazily cleaned expiry heap and per-key version numbers.

    The functions of this module are the specification of each operation on a
    state value; class `CacheState` (CacheState.dfy) updates the same state in
    place and is proved to compute exactly these functions. */
module CacheCore {
  import opened Wrappers

  type Key(==,!new)
  type Val(==,!new)

  datatype Entry = Entry(value: Val, expiresAt: int, version: nat)

  datatype Record = Record(expiresAt: int, sequence: nat, key: Key, version: nat)

  /** `order` lists the keys of `entries` from least to most recently used;
      `heap` lists the expiry records in heap order, smallest first. */
  datatype State = State(
    maxSize: nat,
    entries: map<Key, Entry>,
    order: seq<Key>,
    heap: seq<Record>,
    versions: map<Key, nat>,
    clearEpoch: nat,
    lastTick: int,
    sequence: nat,
    counters: Counters)

  datatype Counters = Counters(
    hits: nat, misses: nat, loads: nat, loadFailures: nat, loadRejections: nat,
    coalescedWaiters: nat, evictions: nat, expirations: nat, invalidations: nat)

  const ZeroCounters := Counters(0, 0, 0, 0, 0, 0, 0, 0, 0)

  function Initial(maxSize: nat): State {
    State(maxSize, map[], [], [], map[], 0, 0, 0, ZeroCounters)
  }

  // ----- ordered-dictionary and heap primitives -----

  function Without(order: seq<Key>, key: Key): seq<Key> {
    if order == [] then []
    else if order[0] == key then Without(order[1..], key)
    else [order[0]] + Without(order[1..], key)
  }

  function MoveToEnd(order: seq<Key>, key: Key): seq<Key> {
    Without(order, key) + [key]
  }

  /** Tuple order of the heap records; sequence numbers are never equal in a
      valid state, so the key is never compared. */
  predicate Before(a: Record, b: Record) {
    a.expiresAt < b.expiresAt || (a.expiresAt == b.expiresAt && a.sequence <= b.sequence)
  }

  function Push(heap: seq<Record>, r: Record): seq<Record> {
    if heap == [] then [r]
    else if Before(r, heap[0]) then [r] + heap
    else [heap[0]] + Push(heap[1..], r)
  }

  function Heapify(records: seq<Record>): seq<Record> {
    if records == [] then [] else Push(Heapify(records[..|records| - 1]), records[|records| - 1])
  }

  // ----- operations -----

  function Version(s: State, key: Key): nat {
    if key in s.versions then s.versions[key] else 0
  }

  function BumpVersion(s: State, key: Key): State {
    s.(versions := s.versions[key := Version(s, key) + 1])
  }

  function DropUnused(s: State, key: Key, owned: set<Key>): State {
    if key !in s.entries && key !in owned then s.(versions := s.versions - {key}) else s
  }

  function RemoveEntry(s: State, key: Key): State {
    s.(entries := s.entries - {key}, order := Without(s.order, key))
  }

  /** One iteration of the purge loop on a non-empty heap. */
  function PopRecord(s: State, owned: set<Key>): State
    requires s.heap != []
  {
    var r := s.heap[0];
    var popped := s.(heap := s.heap[1..]);
    if r.key !in s.entries || s.entries[r.key].version != r.version then popped
    else
      DropUnused(
        RemoveEntry(popped, r.key).(counters := s.counters.(expirations := s.counters.expirations + 1)),
        r.key, owned)
  }

  function Purge(s: State, now: int, owned: set<Key>): State
    decreases |s.heap|
  {
    if s.heap == [] || s.heap[0].expiresAt > now then s
    else Purge(PopRecord(s, owned), now, owned)
  }

  function Get(s: State, key: Key, now: int, owned: set<Key>): (State, Option<Val>) {
    var p := Purge(s, now, owned);
    if key in p.entries then
      (p.(order := MoveToEnd(p.order, key), counters := p.counters.(hits := p.counters.hits + 1)),
       Some(p.entries[key].value))
    else
      (p.(counters := p.counters.(misses := p.counters.misses + 1)), None)
  }

  function EvictOne(s: State, owned: set<Key>): State
    requires s.order != []
  {
    var key := s.order[0];
    DropUnused(
      s.(entries := s.entries - {key}, order := s.order[1..],
         counters := s.counters.(evictions := s.counters.evictions + 1)),
      key, owned)
  }

  function Evict(s: State, owned: set<Key>): State
    decreases |s.order|
  {
    if |s.order| <= s.maxSize then s else Evict(EvictOne(s, owned), owned)
  }

  /** The live entries as heap records, numbered upwards from `sequence`. */
  function LiveRecords(entries: map<Key, Entry>, order: seq<Key>, sequence: nat): seq<Record>
    requires forall k | k in order :: k in entries
  {
    if order == [] then []
    else
      var init, k := order[..|order| - 1], order[|order| - 1];
      LiveRecords(entries, init, sequence)
      + [Record(entries[k].expiresAt, sequence + |order|, k, entries[k].version)]
  }

  function Rebuild(s: State): State
    requires forall k | k in s.order :: k in s.entries
  {
    s.(heap := Heapify(LiveRecords(s.entries, s.order, s.sequence)),
       sequence := s.sequence + |s.order|)
  }

  /** The insertion part of `store`, before eviction. */
  function Insert(s: State, key: Key, value: Val, expiresAt: int): State {
    var version := Version(s, key) + 1;
    s.(versions := s.versions[key := version],
       entries := s.entries[key := Entry(value, expiresAt, version)],
       order := MoveToEnd(s.order, key),
       sequence := s.sequence + 1,
       heap := Push(s.heap, Record(expiresAt, s.sequence + 1, key, version)))
  }

  function Store(s: State, key: Key, value: Val, ttl: int, now: int, owned: set<Key>): State
    requires Ordered(s)
  {
    PurgeOrdered(s, now, owned);
    var inserted := Insert(Purge(s, now, owned), key, value, now + ttl);
    InsertOrdered(Purge(s, now, owned), key, value, now + ttl);
    EvictOrdered(inserted, owned);
    var evicted := Evict(inserted, owned);
    if |evicted.heap| > 2 * s.maxSize then Rebuild(evicted) else evicted
  }

  function Invalidate(s: State, key: Key, now: int, owned: set<Key>): (State, bool) {
    var p := Purge(s, now, owned);
    var present := key in p.entries;
    var removed := BumpVersion(RemoveEntry(p, key), key);
    var counted :=
      if present then removed.(counters := removed.counters.(invalidations := removed.counters.invalidations + 1))
      else removed;
    (DropUnused(counted, key, owned), present)
  }

  function Clear(s: State, owned: set<Key>): State {
    s.(clearEpoch := s.clearEpoch + 1, entries := map[], order := [], heap := [],
       versions := map k | k in s.versions && k in owned :: s.versions[k])
  }

  function ClampTick(s: State, tick: int): State {
    s.(lastTick := if s.lastTick >= tick then s.lastTick else tick)
  }

  // ----- the order list and the entry table name the same keys, once each -----

  predicate NoDuplicates(order: seq<Key>) {
    forall i, j | 0 <= i < j < |order| :: order[i] != order[j]
  }

  predicate Ordered(s: State) {
    NoDuplicates(s.order) && (forall k | k in s.order :: k in s.entries) && (forall k | k in s.entries :: k in s.order)
  }

  lemma WithoutFacts(order: seq<Key>, key: Key)
    ensures forall k :: k in Without(order, key) <==> k in order && k != key
    ensures |Without(order, key)| <= |order|
    ensures key !in order ==> Without(order, key) == order
    ensures NoDuplicates(order) ==> NoDuplicates(Without(order, key))
    ensures NoDuplicates(order) && key in order ==> |Without(order, key)| == |order| - 1
  {
    if order != [] {
      WithoutFacts(order[1..], key);
      var w := Without(order[1..], key);
      if NoDuplicates(order) {
        assert NoDuplicates(order[1..]);
        if order[0] != key {
          assert order[0] !in w;
        }
      }
    }
  }

  lemma PopOrdered(s: State, owned: set<Key>)
    requires Ordered(s) && s.heap != []
    ensures Ordered(PopRecord(s, owned))
  {
    WithoutFacts(s.order, s.heap[0].key);
  }

  lemma PurgeOrdered(s: State, now: int, owned: set<Key>)
    requires Ordered(s)
    ensures Ordered(Purge(s, now, owned))
    decreases |s.heap|
  {
    if s.heap != [] && s.heap[0].expiresAt <= now {
      PopOrdered(s, owned);
      PurgeOrdered(PopRecord(s, owned), now, owned);
    }
  }

  lemma InsertOrdered(s: State, key: Key, value: Val, expiresAt: int)
    requires Ordered(s)
    ensures Ordered(Insert(s, key, value, expiresAt))
    ensures |Insert(s, key, value, expiresAt).order| <= |s.order| + 1
  {
    WithoutFacts(s.order, key);
  }

  lemma EvictOneOrdered(s: State, owned: set<Key>)
    requires Ordered(s) && s.order != []
    ensures Ordered(EvictOne(s, owned))
  {
  }

  lemma EvictOrdered(s: State, owned: set<Key>)
    requires Ordered(s)
    ensures Ordered(Evict(s, owned)) && Evict(s, owned).maxSize == s.maxSize
    ensures |Evict(s, owned).order| <= s.maxSize
    decreases |s.order|
  {
    if |s.order| > s.maxSize {
      EvictOneOrdered(s, owned);
      EvictOrdered(EvictOne(s, owned), owned);
    }
  }
}
