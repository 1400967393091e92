/** What every cache operation keeps, in every run and for every choice of owned
    keys: the heap is ordered and uniquely numbered, the sizes are bounded, and
    each live entry has its own exact record in the heap.  The last point is what
    makes the lazily cleaned heap safe: no read can return an expired or a
    superseded value. */
module CacheInvariants {
  import opened Wrappers
  import opened CacheCore

  predicate HeapSorted(heap: seq<Record>) {
    forall i, j | 0 <= i < j < |heap| :: Before(heap[i], heap[j])
  }

  predicate Numbered(heap: seq<Record>, sequence: nat) {
    (forall i | 0 <= i < |heap| :: heap[i].sequence <= sequence)
    && (forall i, j | 0 <= i < j < |heap| :: heap[i].sequence != heap[j].sequence)
  }

  ghost predicate HasRecord(heap: seq<Record>, key: Key, e: Entry) {
    exists r | r in heap :: r.key == key && r.expiresAt == e.expiresAt && r.version == e.version
  }

  ghost predicate Covered(s: State) {
    forall k | k in s.entries :: HasRecord(s.heap, k, s.entries[k])
  }

  ghost predicate Valid(s: State) {
    && s.maxSize >= 1
    && Ordered(s)
    && |s.order| <= s.maxSize
    && |s.heap| <= 2 * s.maxSize
    && HeapSorted(s.heap)
    && Numbered(s.heap, s.sequence)
    && Covered(s)
    && s.entries.Keys <= s.versions.Keys
  }

  /** Validity does not depend on the tick, the epoch or the counters. */
  lemma ValidTransfer(s: State, t: State)
    requires Valid(s) && t == s.(clearEpoch := t.clearEpoch, lastTick := t.lastTick, counters := t.counters)
    ensures Valid(t)
  {
  }

  /** The same, without the two size bounds: what holds inside `store`. */
  ghost predicate Loose(s: State) {
    && s.maxSize >= 1 && Ordered(s) && HeapSorted(s.heap) && Numbered(s.heap, s.sequence)
    && Covered(s) && s.entries.Keys <= s.versions.Keys
  }

  /** Versions are kept only for cached keys and for keys with an owned load. */
  predicate VersionsBounded(s: State, owned: set<Key>) {
    s.versions.Keys <= s.entries.Keys + owned
  }

  // ----- heap primitives -----

  lemma PushFacts(heap: seq<Record>, r: Record)
    ensures |Push(heap, r)| == |heap| + 1
    ensures forall x :: x in Push(heap, r) <==> x == r || x in heap
    ensures multiset(Push(heap, r)) == multiset(heap) + multiset{r}
    ensures HeapSorted(heap) ==> HeapSorted(Push(heap, r))
  {
    if heap != [] {
      assert heap == [heap[0]] + heap[1..];
      PushFacts(heap[1..], r);
      var p := Push(heap, r);
      if HeapSorted(heap) {
        forall i, j | 0 <= i < j < |p| ensures Before(p[i], p[j]) {
          if Before(r, heap[0]) {
          } else if i == 0 {
            assert p[j] in Push(heap[1..], r);
          }
        }
      }
    }
  }

  lemma NumberedCons(x: Record, rest: seq<Record>, sequence: nat)
    requires Numbered(rest, sequence) && x.sequence <= sequence
    requires forall y | y in rest :: y.sequence != x.sequence
    ensures Numbered([x] + rest, sequence)
  {
    var p := [x] + rest;
    forall i, j | 0 <= i < j < |p| ensures p[i].sequence != p[j].sequence {
      assert p[j] == rest[j - 1];
    }
  }

  lemma TailKeeps(heap: seq<Record>, sequence: nat)
    requires heap != []
    ensures HeapSorted(heap) ==> HeapSorted(heap[1..])
    ensures Numbered(heap, sequence) ==>
      && Numbered(heap[1..], sequence)
      && heap[0].sequence <= sequence
      && forall y | y in heap[1..] :: y.sequence != heap[0].sequence
  {
    hide Before;
  }

  lemma DistinctAfterPush(heap: seq<Record>, r: Record, sequence: nat)
    requires Numbered(heap, sequence) && r.sequence == sequence + 1
    ensures Numbered(Push(heap, r), sequence + 1)
  {
    if heap == [] || Before(r, heap[0]) {
      NumberedWider(heap, sequence);
      assert forall y | y in heap :: y.sequence <= sequence;
      NumberedCons(r, heap, sequence + 1);
      assert Push(heap, r) == [r] + heap;
    } else {
      hide Numbered, HeapSorted, Before;
      TailKeeps(heap, sequence);
      DistinctAfterPush(heap[1..], r, sequence);
      PushFacts(heap[1..], r);
      NumberedCons(heap[0], Push(heap[1..], r), sequence + 1);
    }
  }

  lemma NumberedWider(heap: seq<Record>, sequence: nat)
    requires Numbered(heap, sequence)
    ensures Numbered(heap, sequence + 1)
  {
  }

  lemma HeapifyFacts(records: seq<Record>)
    ensures |Heapify(records)| == |records|
    ensures forall x :: x in Heapify(records) <==> x in records
    ensures HeapSorted(Heapify(records))
  {
    if records != [] {
      var init, r := records[..|records| - 1], records[|records| - 1];
      assert records == init + [r];
      HeapifyFacts(init);
      PushFacts(Heapify(init), r);
    }
  }

  lemma LiveRecordsFacts(entries: map<Key, Entry>, order: seq<Key>, sequence: nat)
    requires forall k | k in order :: k in entries
    ensures |LiveRecords(entries, order, sequence)| == |order|
    ensures forall i | 0 <= i < |order| ::
      LiveRecords(entries, order, sequence)[i]
      == Record(entries[order[i]].expiresAt, sequence + i + 1, order[i], entries[order[i]].version)
  {
    if order != [] { LiveRecordsFacts(entries, order[..|order| - 1], sequence); }
  }

  lemma HeapifyNumbered(entries: map<Key, Entry>, order: seq<Key>, sequence: nat)
    requires forall k | k in order :: k in entries
    ensures Numbered(Heapify(LiveRecords(entries, order, sequence)), sequence + |order|)
  {
    if order != [] {
      var init, k := order[..|order| - 1], order[|order| - 1];
      HeapifyNumbered(entries, init, sequence);
      var records := LiveRecords(entries, order, sequence);
      assert records[..|records| - 1] == LiveRecords(entries, init, sequence);
      DistinctAfterPush(Heapify(LiveRecords(entries, init, sequence)), records[|records| - 1], sequence + |init|);
    }
  }

  // ----- purge -----

  lemma PopKeeps(s: State, owned: set<Key>)
    requires Loose(s) && s.heap != []
    ensures Loose(PopRecord(s, owned))
    ensures Preserved(s, PopRecord(s, owned))
    ensures owned * s.versions.Keys <= PopRecord(s, owned).versions.Keys
  {
    hide HeapSorted, Numbered, Without;
    PopOrdered(s, owned);
    WithoutFacts(s.order, s.heap[0].key);
    TailKeeps(s.heap, s.sequence);
    var t := PopRecord(s, owned);
    forall k | k in t.entries ensures HasRecord(t.heap, k, t.entries[k]) {
      var e := s.entries[k];
      var r :| r in s.heap && r.key == k && r.expiresAt == e.expiresAt && r.version == e.version;
      assert r in s.heap[1..];
    }
  }

  /** `t` has only entries of `s`, unchanged, and only versions of `s`. */
  predicate Preserved(s: State, t: State) {
    && t.maxSize == s.maxSize && t.clearEpoch == s.clearEpoch && t.lastTick == s.lastTick
    && t.sequence == s.sequence && |t.heap| <= |s.heap| && |t.order| <= |s.order|
    && (forall k | k in t.entries :: k in s.entries && t.entries[k] == s.entries[k])
    && (forall k | k in t.versions :: k in s.versions && t.versions[k] == s.versions[k])
    && (forall k | k in s.versions && k !in t.versions :: k in s.entries && k !in t.entries)
    && (forall r | r in t.heap :: r in s.heap)
    && t.counters == s.counters.(expirations := t.counters.expirations)
  }

  lemma {:induction false} PurgeKeeps(s: State, now: int, owned: set<Key>)
    requires Loose(s)
    ensures Loose(Purge(s, now, owned))
    ensures Preserved(s, Purge(s, now, owned))
    ensures owned * s.versions.Keys <= Purge(s, now, owned).versions.Keys
    ensures forall r | r in Purge(s, now, owned).heap :: r.expiresAt > now
    ensures forall k | k in Purge(s, now, owned).entries :: Purge(s, now, owned).entries[k].expiresAt > now
    decreases |s.heap|
  {
    var t := Purge(s, now, owned);
    if s.heap != [] && s.heap[0].expiresAt <= now {
      PopKeeps(s, owned);
      PurgeKeeps(PopRecord(s, owned), now, owned);
    } else {
      assert forall r | r in t.heap :: r.expiresAt > now;
      forall k | k in t.entries ensures t.entries[k].expiresAt > now {
        assert HasRecord(t.heap, k, t.entries[k]);
      }
    }
  }

  lemma PurgeVersionsBounded(s: State, now: int, owned: set<Key>)
    requires Loose(s) && VersionsBounded(s, owned)
    ensures VersionsBounded(Purge(s, now, owned), owned)
    decreases |s.heap|
  {
    if s.heap != [] && s.heap[0].expiresAt <= now {
      PopKeeps(s, owned);
      PurgeVersionsBounded(PopRecord(s, owned), now, owned);
    }
  }

  // ----- store -----

  lemma InsertKeeps(s: State, key: Key, value: Val, expiresAt: int)
    requires Loose(s)
    ensures Loose(Insert(s, key, value, expiresAt))
  {
    InsertOrdered(s, key, value, expiresAt);
    var t := Insert(s, key, value, expiresAt);
    var r := Record(expiresAt, s.sequence + 1, key, Version(s, key) + 1);
    PushFacts(s.heap, r);
    DistinctAfterPush(s.heap, r, s.sequence);
    forall k | k in t.entries ensures HasRecord(t.heap, k, t.entries[k]) {
      if k == key {
        assert r in t.heap;
      } else {
        var x :| x in s.heap && x.key == k && x.expiresAt == s.entries[k].expiresAt &&
          x.version == s.entries[k].version;
        assert x in t.heap;
      }
    }
  }

  lemma EvictKeeps(s: State, owned: set<Key>)
    requires Loose(s)
    ensures Loose(Evict(s, owned)) && |Evict(s, owned).order| <= s.maxSize
    ensures Evict(s, owned).heap == s.heap && Evict(s, owned).sequence == s.sequence
    ensures Evict(s, owned).clearEpoch == s.clearEpoch && Evict(s, owned).lastTick == s.lastTick
    ensures Evict(s, owned).maxSize == s.maxSize
    ensures forall k | k in Evict(s, owned).entries :: k in s.entries && Evict(s, owned).entries[k] == s.entries[k]
    ensures forall k | k in Evict(s, owned).versions :: k in s.versions && Evict(s, owned).versions[k] == s.versions[k]
    ensures owned * s.versions.Keys <= Evict(s, owned).versions.Keys
    ensures VersionsBounded(s, owned) ==> VersionsBounded(Evict(s, owned), owned)
    decreases |s.order|
  {
    if |s.order| > s.maxSize {
      EvictOneOrdered(s, owned);
      var t := EvictOne(s, owned);
      forall k | k in t.entries ensures HasRecord(t.heap, k, t.entries[k]) {
        assert HasRecord(s.heap, k, s.entries[k]);
      }
      EvictKeeps(t, owned);
    }
  }

  /** The most recently stored key survives its own eviction round. */
  lemma EvictKeepsNewest(s: State, owned: set<Key>)
    requires Ordered(s) && s.maxSize >= 1 && s.order != []
    ensures s.order[|s.order| - 1] in Evict(s, owned).entries
    ensures Evict(s, owned).entries[s.order[|s.order| - 1]] == s.entries[s.order[|s.order| - 1]]
    ensures s.order[|s.order| - 1] in s.versions ==>
      s.order[|s.order| - 1] in Evict(s, owned).versions
      && Evict(s, owned).versions[s.order[|s.order| - 1]] == s.versions[s.order[|s.order| - 1]]
    decreases |s.order|
  {
    if |s.order| > s.maxSize {
      EvictOneOrdered(s, owned);
      var t := EvictOne(s, owned);
      assert t.order[|t.order| - 1] == s.order[|s.order| - 1];
      assert s.order[0] != s.order[|s.order| - 1];
      EvictKeepsNewest(t, owned);
    }
  }

  lemma RebuildCovers(s: State, k: Key)
    requires Ordered(s) && k in s.entries
    ensures HasRecord(Rebuild(s).heap, k, s.entries[k])
  {
    hide Heapify, LiveRecords, HeapSorted, NoDuplicates;
    var records := LiveRecords(s.entries, s.order, s.sequence);
    LiveRecordsFacts(s.entries, s.order, s.sequence);
    HeapifyFacts(records);
    var i :| 0 <= i < |s.order| && s.order[i] == k;
    assert records[i] in Rebuild(s).heap;
  }

  lemma RebuildKeeps(s: State)
    requires Loose(s)
    ensures Loose(Rebuild(s)) && |Rebuild(s).heap| == |s.order|
  {
    hide Heapify, LiveRecords, HeapSorted, Numbered, HasRecord, NoDuplicates;
    var t := Rebuild(s);
    assert HeapSorted(t.heap) && |t.heap| == |s.order| by {
      LiveRecordsFacts(s.entries, s.order, s.sequence);
      HeapifyFacts(LiveRecords(s.entries, s.order, s.sequence));
    }
    assert Numbered(t.heap, t.sequence) by { HeapifyNumbered(s.entries, s.order, s.sequence); }
    assert Covered(t) by {
      forall k | k in t.entries ensures HasRecord(t.heap, k, t.entries[k]) {
        RebuildCovers(s, k);
      }
    }
  }

  /** `t` agrees with `s` on everything but `key`: it may have lost entries, and
      versions of keys that are not owned. */
  predicate ElsewherePreserved(s: State, t: State, key: Key, owned: set<Key>) {
    && t.maxSize == s.maxSize && t.clearEpoch == s.clearEpoch && t.lastTick == s.lastTick
    && (forall k | k in t.entries && k != key :: k in s.entries && t.entries[k] == s.entries[k])
    && (forall k | k in t.versions && k != key :: k in s.versions && t.versions[k] == s.versions[k])
    && owned * s.versions.Keys <= t.versions.Keys
  }

  lemma StoreSteps(s: State, key: Key, value: Val, ttl: int, now: int, owned: set<Key>)
    requires Valid(s)
    ensures var p := Purge(s, now, owned); var q := Insert(p, key, value, now + ttl); var e := Evict(q, owned);
      && Ordered(q) && Ordered(e) && Loose(e) && |e.order| <= s.maxSize && |e.heap| <= |s.heap| + 1
      && e.maxSize == s.maxSize
      && Store(s, key, value, ttl, now, owned) == if |e.heap| > 2 * s.maxSize then Rebuild(e) else e
  {
    hide Ordered, HeapSorted, Numbered, Covered, HasRecord, Purge, Evict, Rebuild;
    PurgeOrdered(s, now, owned);
    PurgeKeeps(s, now, owned);
    var p := Purge(s, now, owned);
    InsertOrdered(p, key, value, now + ttl);
    InsertKeeps(p, key, value, now + ttl);
    PushFacts(p.heap, Record(now + ttl, p.sequence + 1, key, Version(p, key) + 1));
    EvictOrdered(Insert(p, key, value, now + ttl), owned);
    EvictKeeps(Insert(p, key, value, now + ttl), owned);
  }

  lemma StoreValid(s: State, key: Key, value: Val, ttl: int, now: int, owned: set<Key>)
    requires Valid(s)
    ensures Valid(Store(s, key, value, ttl, now, owned))
  {
    StoreSteps(s, key, value, ttl, now, owned);
    RebuildKeeps(Evict(Insert(Purge(s, now, owned), key, value, now + ttl), owned));
  }

  /** A store changes its own key to the new value and the version after the one the
      purge left, keeps every other surviving entry as it was, and loses no owned
      key's version. */
  lemma StoreKeeps(s: State, key: Key, value: Val, ttl: int, now: int, owned: set<Key>)
    requires Valid(s)
    ensures var t := Store(s, key, value, ttl, now, owned);
      && Valid(t) && ElsewherePreserved(s, t, key, owned)
      && key in t.entries && t.entries[key].value == value && t.entries[key].expiresAt == now + ttl
      && t.entries[key].version == Version(t, key) == Version(Purge(s, now, owned), key) + 1
      && (forall k | k in t.entries && k != key :: t.entries[k].expiresAt > now)
      && (key in owned ==> Version(t, key) == Version(s, key) + 1)
      && (VersionsBounded(s, owned) ==> VersionsBounded(t, owned))
  {
    hide Ordered, HeapSorted, Numbered, Covered, HasRecord, Purge, Evict, Store, Push, Without;
    StoreValid(s, key, value, ttl, now, owned);
    StoreSteps(s, key, value, ttl, now, owned);
    PurgeKeeps(s, now, owned);
    if VersionsBounded(s, owned) { PurgeVersionsBounded(s, now, owned); }
    var p := Purge(s, now, owned);
    var q := Insert(p, key, value, now + ttl);
    InsertKeeps(p, key, value, now + ttl);
    assert ElsewherePreserved(s, q, key, owned);
    EvictKeeps(q, owned);
    EvictKeepsNewest(q, owned);
    assert q.order[|q.order| - 1] == key;
  }

  // ----- the remaining operations -----

  lemma GetKeeps(s: State, key: Key, now: int, owned: set<Key>)
    requires Valid(s)
    ensures var (t, r) := Get(s, key, now, owned);
      && Valid(t) && t.maxSize == s.maxSize && t.clearEpoch == s.clearEpoch && t.lastTick == s.lastTick
      && t.entries == Purge(s, now, owned).entries && t.versions == Purge(s, now, owned).versions
      && t.heap == Purge(s, now, owned).heap
      && (r.Some? ==> key in s.entries && s.entries[key].value == r.value && s.entries[key].expiresAt > now)
  {
    hide HeapSorted, Numbered, Without, Purge;
    PurgeKeeps(s, now, owned);
    var p := Purge(s, now, owned);
    WithoutFacts(p.order, key);
    var (t, r) := Get(s, key, now, owned);
    forall k | k in t.entries ensures HasRecord(t.heap, k, t.entries[k]) {
      assert HasRecord(p.heap, k, p.entries[k]);
    }
  }

  lemma InvalidateValid(s: State, key: Key, now: int, owned: set<Key>)
    requires Valid(s)
    ensures Valid(Invalidate(s, key, now, owned).0)
  {
    PurgeKeeps(s, now, owned);
    var p := Purge(s, now, owned);
    WithoutFacts(p.order, key);
    var t := Invalidate(s, key, now, owned).0;
    forall k | k in t.entries ensures HasRecord(t.heap, k, t.entries[k]) {
      assert HasRecord(p.heap, k, p.entries[k]);
    }
  }

  lemma InvalidateKeeps(s: State, key: Key, now: int, owned: set<Key>)
    requires Valid(s)
    ensures var (t, r) := Invalidate(s, key, now, owned);
      && Valid(t) && ElsewherePreserved(s, t, key, owned)
      && key !in t.entries
      && (r <==> key in Purge(s, now, owned).entries)
      && (key in owned ==> Version(t, key) == Version(s, key) + 1)
      && (VersionsBounded(s, owned) ==> VersionsBounded(t, owned))
  {
    hide Ordered, HeapSorted, Numbered, Covered, HasRecord, Purge, Without;
    InvalidateValid(s, key, now, owned);
    PurgeKeeps(s, now, owned);
    if VersionsBounded(s, owned) { PurgeVersionsBounded(s, now, owned); }
    var p := Purge(s, now, owned);
    var (t, r) := Invalidate(s, key, now, owned);
    assert t.entries == p.entries - {key};
    assert forall k | k in t.versions && k != key :: k in p.versions && t.versions[k] == p.versions[k];
  }

  lemma ClearKeeps(s: State, owned: set<Key>)
    requires Valid(s)
    ensures Valid(Clear(s, owned)) && VersionsBounded(Clear(s, owned), owned)
    ensures forall k | k in owned :: Version(Clear(s, owned), k) == Version(s, k)
  {
  }

  lemma BumpKeeps(s: State, key: Key)
    requires Valid(s)
    ensures Valid(BumpVersion(s, key))
  {
    var t := BumpVersion(s, key);
    forall k | k in t.entries ensures HasRecord(t.heap, k, t.entries[k]) {
      assert HasRecord(s.heap, k, s.entries[k]);
    }
  }

  lemma DropKeeps(s: State, key: Key, owned: set<Key>)
    requires Valid(s)
    ensures Valid(DropUnused(s, key, owned))
  {
    var t := DropUnused(s, key, owned);
    forall k | k in t.entries ensures HasRecord(t.heap, k, t.entries[k]) {
      assert HasRecord(s.heap, k, s.entries[k]);
    }
  }

  // ----- runs -----

  datatype Op =
    | PurgeOp(now: int)
    | GetOp(key: Key, now: int)
    | StoreOp(key: Key, value: Val, ttl: int, now: int)
    | InvalidateOp(key: Key, now: int)
    | ClearOp
    | BumpOp(key: Key)
    | DropOp(key: Key)

  /** An operation together with the owned keys its caller passed. */
  datatype Call = Call(op: Op, owned: set<Key>)

  function Apply(s: State, c: Call): State
    requires Ordered(s)
  {
    match c.op
    case PurgeOp(now) => Purge(s, now, c.owned)
    case GetOp(key, now) => Get(s, key, now, c.owned).0
    case StoreOp(key, value, ttl, now) => Store(s, key, value, ttl, now, c.owned)
    case InvalidateOp(key, now) => Invalidate(s, key, now, c.owned).0
    case ClearOp => Clear(s, c.owned)
    case BumpOp(key) => BumpVersion(s, key)
    case DropOp(key) => DropUnused(s, key, c.owned)
  }

  /** What a reader of the API expects: for each key the last stored value and
      its deadline, removed by invalidate and clear, never cleaned or evicted. */
  datatype Written = Written(value: Val, expiresAt: int)

  function Recorded(ledger: map<Key, Written>, c: Call): map<Key, Written> {
    match c.op
    case StoreOp(key, value, ttl, now) => ledger[key := Written(value, now + ttl)]
    case InvalidateOp(key, _) => ledger - {key}
    case ClearOp => map[]
    case _ => ledger
  }

  predicate Fresh(s: State, ledger: map<Key, Written>) {
    forall k | k in s.entries ::
      k in ledger && ledger[k] == Written(s.entries[k].value, s.entries[k].expiresAt)
  }

  lemma ApplyKeeps(s: State, ledger: map<Key, Written>, c: Call)
    requires Valid(s) && Fresh(s, ledger)
    ensures Valid(Apply(s, c)) && Fresh(Apply(s, c), Recorded(ledger, c))
    ensures Apply(s, c).maxSize == s.maxSize
  {
    hide Ordered, HeapSorted, Numbered, Covered, HasRecord, Purge, Without, Store, Invalidate, Get;
    match c.op
    case PurgeOp(now) => PurgeKeeps(s, now, c.owned);
    case GetOp(key, now) => GetKeeps(s, key, now, c.owned); PurgeKeeps(s, now, c.owned);
    case StoreOp(key, value, ttl, now) => StoreKeeps(s, key, value, ttl, now, c.owned);
    case InvalidateOp(key, now) => InvalidateKeeps(s, key, now, c.owned);
    case ClearOp => ClearKeeps(s, c.owned);
    case BumpOp(key) => BumpKeeps(s, key);
    case DropOp(key) => DropKeeps(s, key, c.owned);
  }

  ghost function Run(maxSize: nat, calls: seq<Call>): (s: State)
    requires maxSize >= 1
    ensures Valid(s) && s.maxSize == maxSize && Fresh(s, LedgerOf(calls))
  {
    if calls == [] then Initial(maxSize)
    else
      var prior := Run(maxSize, calls[..|calls| - 1]);
      ApplyKeeps(prior, LedgerOf(calls[..|calls| - 1]), calls[|calls| - 1]);
      Apply(prior, calls[|calls| - 1])
  }

  function LedgerOf(calls: seq<Call>): map<Key, Written> {
    if calls == [] then map[] else Recorded(LedgerOf(calls[..|calls| - 1]), calls[|calls| - 1])
  }

  /** Freshness, in every run: a hit returns the last value stored under the key,
      and that value has not reached its deadline. */
  lemma HitIsFresh(maxSize: nat, calls: seq<Call>, key: Key, now: int, owned: set<Key>)
    requires maxSize >= 1
    ensures var r := Get(Run(maxSize, calls), key, now, owned).1;
      r.Some? ==>
        && key in LedgerOf(calls)
        && LedgerOf(calls)[key].value == r.value && LedgerOf(calls)[key].expiresAt > now
  {
    GetKeeps(Run(maxSize, calls), key, now, owned);
  }

  /** Sizes and numbering, in every run. */
  lemma RunBounded(maxSize: nat, calls: seq<Call>)
    requires maxSize >= 1
    ensures var s := Run(maxSize, calls);
      && |s.entries| <= maxSize && |s.heap| <= 2 * maxSize
      && (forall i, j | 0 <= i < j < |s.heap| :: s.heap[i].sequence != s.heap[j].sequence)
  {
    var s := Run(maxSize, calls);
    OrderCounts(s.entries.Keys, s.order);
  }

  lemma OrderCounts(keys: set<Key>, order: seq<Key>)
    requires NoDuplicates(order) && forall k :: k in keys <==> k in order
    ensures |keys| == |order|
  {
    if order == [] {
      assert keys == {};
    } else {
      var rest := order[1..];
      assert forall k :: k in keys - {order[0]} <==> k in rest;
      OrderCounts(keys - {order[0]}, rest);
    }
  }
}
