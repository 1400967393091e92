/** A condition on runs that makes every store safe: a key without a version number
    gets one only while the heap holds no record of the key.  Then a key's heap
    records have distinct versions, and none has a number still to be assigned. */
module CacheNumbering {
  import opened CacheCore
  import opened CacheInvariants
  import opened CacheRefinement

  /** No version was dropped while the heap held a record of its key. */
  predicate NoOrphans(s: State) {
    forall r | r in s.heap :: r.key in s.versions
  }

  /** The next number of `key` follows all its records'. */
  predicate Countable(s: State, key: Key) {
    key in s.versions || forall r | r in s.heap :: r.key != key
  }

  predicate DistinctVersions(heap: seq<Record>) {
    forall r, q | r in heap && q in heap && r.key == q.key && r.version == q.version :: r == q
  }

  predicate Tracked(s: State) {
    && (forall r | r in s.heap && r.key in s.versions :: r.version <= s.versions[r.key])
    && DistinctVersions(s.heap)
    && (forall k | k in s.entries :: k in s.versions && s.entries[k].version <= s.versions[k])
  }

  /** The call assigns a number only to a countable key. */
  predicate CallCountable(s: State, c: Call) {
    match c.op
    case StoreOp(key, _, _, now) => Countable(Purge(s, now, c.owned), key)
    case InvalidateOp(key, now) => key in c.owned ==> Countable(Purge(s, now, c.owned), key)
    case BumpOp(key) => Countable(s, key)
    case _ => true
  }

  ghost predicate RunCountable(maxSize: nat, calls: seq<Call>)
    requires maxSize >= 1
  {
    forall i | 0 <= i < |calls| :: CallCountable(Run(maxSize, calls[..i]), calls[i])
  }

  lemma {:induction false} PurgeTracked(s: State, now: int, owned: set<Key>)
    requires Tracked(s)
    ensures Tracked(Purge(s, now, owned))
    decreases |s.heap|
  {
    if s.heap != [] && s.heap[0].expiresAt <= now {
      var t := PopRecord(s, owned);
      assert forall r | r in t.heap :: r in s.heap;
      PurgeTracked(t, now, owned);
    }
  }

  lemma InsertTracked(s: State, key: Key, value: Val, expiresAt: int)
    requires Tracked(s) && Countable(s, key)
    ensures Tracked(Insert(s, key, value, expiresAt))
  {
    hide Push, HeapSorted, Without;
    PushFacts(s.heap, Record(expiresAt, s.sequence + 1, key, Version(s, key) + 1));
  }

  lemma {:induction false} EvictTracked(s: State, owned: set<Key>)
    requires Tracked(s)
    ensures Tracked(Evict(s, owned))
    decreases |s.order|
  {
    if |s.order| > s.maxSize { EvictTracked(EvictOne(s, owned), owned); }
  }

  lemma RebuildTracked(s: State)
    requires Tracked(s) && Ordered(s)
    ensures Tracked(Rebuild(s))
  {
    hide Heapify, HeapSorted, LiveRecords;
    var records := LiveRecords(s.entries, s.order, s.sequence);
    LiveRecordsFacts(s.entries, s.order, s.sequence);
    HeapifyFacts(records);
    var t := Rebuild(s);
    forall r | r in t.heap ensures r.key in s.entries && r.version == s.entries[r.key].version {
      var i :| 0 <= i < |records| && records[i] == r;
    }
    forall r, q | r in t.heap && q in t.heap && r.key == q.key ensures r == q {
      var i :| 0 <= i < |records| && records[i] == r;
      var j :| 0 <= j < |records| && records[j] == q;
      assert s.order[i] == s.order[j];
    }
  }

  lemma StoreTracked(s: State, key: Key, value: Val, ttl: int, now: int, owned: set<Key>)
    requires Valid(s) && Tracked(s) && Countable(Purge(s, now, owned), key)
    ensures Tracked(Store(s, key, value, ttl, now, owned)) && StoreSafe(s, key, ttl, now, owned)
  {
    hide Valid, Loose, Ordered, Purge, Insert, Evict, Rebuild, Store, Tracked, StoreSafe;
    var p := Purge(s, now, owned);
    PurgeTracked(s, now, owned);
    InsertTracked(p, key, value, now + ttl);
    EvictTracked(Insert(p, key, value, now + ttl), owned);
    StoreSteps(s, key, value, ttl, now, owned);
    RebuildTracked(Evict(Insert(p, key, value, now + ttl), owned));
    CountableSafe(s, key, ttl, now, owned);
  }

  lemma CountableSafe(s: State, key: Key, ttl: int, now: int, owned: set<Key>)
    requires Tracked(Purge(s, now, owned)) && Countable(Purge(s, now, owned), key)
    ensures StoreSafe(s, key, ttl, now, owned)
  {
    hide Purge;
  }

  lemma ApplyTracked(s: State, c: Call)
    requires Valid(s) && Tracked(s) && CallCountable(s, c)
    ensures Tracked(Apply(s, c)) && CallSafe(s, c)
  {
    hide Valid, Purge, Store, StoreSafe, Without;
    match c.op
    case PurgeOp(now) => PurgeTracked(s, now, c.owned);
    case GetOp(key, now) => PurgeTracked(s, now, c.owned);
    case StoreOp(key, value, ttl, now) => StoreTracked(s, key, value, ttl, now, c.owned);
    case InvalidateOp(key, now) => PurgeTracked(s, now, c.owned);
    case ClearOp =>
    case BumpOp(key) =>
    case DropOp(key) =>
  }

  /** In such a run a key's heap records have distinct versions, and every store is
      safe, so the cache is the plain one. */
  lemma {:induction false} CountableRunSafe(maxSize: nat, calls: seq<Call>)
    requires maxSize >= 1 && RunCountable(maxSize, calls)
    ensures DistinctVersions(Run(maxSize, calls).heap) && Tracked(Run(maxSize, calls)) && RunSafe(maxSize, calls)
  {
    hide Apply, CallSafe, CallCountable, Valid, Tracked;
    if calls == [] {
      assert Tracked(Initial(maxSize)) by { EmptyTracked(maxSize); }
    } else {
      var last := |calls| - 1;
      forall i | 0 <= i < last ensures CallCountable(Run(maxSize, calls[..last][..i]), calls[..last][i]) {
        assert calls[..last][..i] == calls[..i];
      }
      CountableRunSafe(maxSize, calls[..last]);
      ApplyTracked(Run(maxSize, calls[..last]), calls[last]);
      forall i | 0 <= i < |calls| ensures CallSafe(Run(maxSize, calls[..i]), calls[i]) {
        if i < last {
          assert CallSafe(Run(maxSize, calls[..last][..i]), calls[..last][i]);
          assert calls[..last][..i] == calls[..i];
        }
      }
    }
    TrackedDistinct(Run(maxSize, calls));
  }

  lemma EmptyTracked(maxSize: nat)
    ensures Tracked(Initial(maxSize))
  {
  }

  lemma TrackedDistinct(s: State)
    requires Tracked(s)
    ensures DistinctVersions(s.heap)
  {
  }

  /** The state in which a call assigns its number. */
  function Assigning(s: State, c: Call): State {
    match c.op
    case StoreOp(_, _, _, now) => Purge(s, now, c.owned)
    case InvalidateOp(_, now) => Purge(s, now, c.owned)
    case _ => s
  }

  /** A run in which no version is dropped while the heap still holds a record of its
      key is one. */
  lemma KeptVersionsRunSafe(maxSize: nat, calls: seq<Call>)
    requires maxSize >= 1
    requires forall i | 0 <= i < |calls| :: NoOrphans(Assigning(Run(maxSize, calls[..i]), calls[i]))
    ensures DistinctVersions(Run(maxSize, calls).heap) && RunSafe(maxSize, calls)
    ensures Abstract(Run(maxSize, calls)) == PlainRun(maxSize, calls)
  {
    hide Run, Purge, RunSafe, Abstract;
    forall i | 0 <= i < |calls| ensures CallCountable(Run(maxSize, calls[..i]), calls[i]) {
      assert NoOrphans(Assigning(Run(maxSize, calls[..i]), calls[i]));
    }
    CountableRunSafe(maxSize, calls);
    SafeRunRefines(maxSize, calls);
  }
}
