/** When the cache behaves as a plain TTL map with least-recently-used eviction.

    `purge_expired` compares only version numbers, and a key's version number
    starts again from one after `drop_unused_version`, so an old heap record can
    carry the number of a newer entry and remove it early.  This module shows a
    run where that happens, and proves exactly when it cannot: a store is safe if
    and only if the heap holds no earlier record with the number it will assign,
    or the store rebuilds the heap. */
module CacheRefinement {
  import opened Wrappers
  import opened CacheCore
  import opened CacheInvariants

  datatype Plain = Plain(maxSize: nat, order: seq<Key>, items: map<Key, Written>)

  function Abstract(s: State): Plain {
    Plain(s.maxSize, s.order, map k | k in s.entries :: Written(s.entries[k].value, s.entries[k].expiresAt))
  }

  function Keep(order: seq<Key>, keys: set<Key>): seq<Key> {
    if order == [] then [] else (if order[0] in keys then [order[0]] else []) + Keep(order[1..], keys)
  }

  function PlainPurge(p: Plain, now: int): Plain {
    var live := map k | k in p.items && p.items[k].expiresAt > now :: p.items[k];
    Plain(p.maxSize, Keep(p.order, live.Keys), live)
  }

  function PlainGet(p: Plain, key: Key, now: int): (Plain, Option<Val>) {
    var q := PlainPurge(p, now);
    if key in q.items then (q.(order := MoveToEnd(q.order, key)), Some(q.items[key].value)) else (q, None)
  }

  function PlainEvict(p: Plain): Plain
    decreases |p.order|
  {
    if |p.order| <= p.maxSize then p
    else PlainEvict(p.(order := p.order[1..], items := p.items - {p.order[0]}))
  }

  function PlainStore(p: Plain, key: Key, value: Val, ttl: int, now: int): Plain {
    var q := PlainPurge(p, now);
    PlainEvict(q.(order := MoveToEnd(q.order, key), items := q.items[key := Written(value, now + ttl)]))
  }

  function PlainInvalidate(p: Plain, key: Key, now: int): (Plain, bool) {
    var q := PlainPurge(p, now);
    (q.(order := Without(q.order, key), items := q.items - {key}), key in q.items)
  }

  // ----- what a purge removes, in closed form -----

  predicate Matches(s: State, r: Record) {
    r.key in s.entries && s.entries[r.key].version == r.version
  }

  ghost predicate HasDueMatch(s: State, key: Key, now: int) {
    exists r | r in s.heap :: r.key == key && r.expiresAt <= now && Matches(s, r)
  }

  lemma KeepWithout(order: seq<Key>, key: Key, keys: set<Key>)
    requires key !in keys
    ensures Keep(Without(order, key), keys) == Keep(order, keys)
  {
    if order != [] { KeepWithout(order[1..], key, keys); }
  }

  lemma KeepAll(order: seq<Key>, keys: set<Key>)
    requires forall k | k in order :: k in keys
    ensures Keep(order, keys) == order
  {
    if order != [] { KeepAll(order[1..], keys); }
  }

  /** A purge removes exactly the keys that have a due record carrying their
      entry's version, and keeps the order of the others. */
  lemma {:induction false} PurgeRemoves(s: State, now: int, owned: set<Key>)
    requires Loose(s)
    ensures forall k :: k in Purge(s, now, owned).entries <==> k in s.entries && !HasDueMatch(s, k, now)
    ensures Purge(s, now, owned).order == Keep(s.order, Purge(s, now, owned).entries.Keys)
    decreases |s.heap|
  {
    hide HasDueMatch, Ordered, HeapSorted, Numbered, Covered, HasRecord, Keep, Without;
    var t := Purge(s, now, owned);
    if s.heap == [] || s.heap[0].expiresAt > now {
      NothingDue(s, now);
    } else {
      PopKeeps(s, owned);
      var u := PopRecord(s, owned);
      PurgeRemoves(u, now, owned);
      PopDueMatches(s, now, owned);
      PurgeKeeps(u, now, owned);
      if u.order != s.order { KeepWithout(s.order, s.heap[0].key, t.entries.Keys); }
    }
  }

  lemma NothingDue(s: State, now: int)
    requires Ordered(s) && HeapSorted(s.heap) && (s.heap == [] || s.heap[0].expiresAt > now)
    ensures forall k :: !HasDueMatch(s, k, now)
    ensures Keep(s.order, s.entries.Keys) == s.order
  {
    forall r | r in s.heap ensures r.expiresAt > now {
      var i :| 0 <= i < |s.heap| && s.heap[i] == r;
      assert i > 0 ==> Before(s.heap[0], s.heap[i]);
    }
    KeepAll(s.order, s.entries.Keys);
  }

  lemma PopDueMatches(s: State, now: int, owned: set<Key>)
    requires s.heap != [] && s.heap[0].expiresAt <= now
    ensures var u := PopRecord(s, owned);
      forall k :: (k in u.entries && !HasDueMatch(u, k, now)) <==> (k in s.entries && !HasDueMatch(s, k, now))
  {
    var u := PopRecord(s, owned);
    assert s.heap == [s.heap[0]] + s.heap[1..];
    forall k
      ensures (k in u.entries && !HasDueMatch(u, k, now)) <==> (k in s.entries && !HasDueMatch(s, k, now))
    {
      if k in u.entries && HasDueMatch(u, k, now) {
        var r :| r in u.heap && r.key == k && r.expiresAt <= now && Matches(u, r);
        assert r in s.heap && Matches(s, r);
      }
      if k in s.entries && HasDueMatch(s, k, now) && k in u.entries {
        var r :| r in s.heap && r.key == k && r.expiresAt <= now && Matches(s, r);
        assert r != s.heap[0];
        assert r in u.heap && Matches(u, r);
      }
      if k in s.entries && k !in u.entries {
        assert Matches(s, s.heap[0]) && k == s.heap[0].key;
      }
    }
  }

  // ----- exactness of one purge -----

  predicate PurgeExact(s: State, now: int, owned: set<Key>) {
    Abstract(Purge(s, now, owned)) == PlainPurge(Abstract(s), now)
  }

  /** No heap record that carries a live entry's version is due before it. */
  predicate NoEarlyAlias(s: State) {
    forall r | r in s.heap :: Matches(s, r) ==> r.expiresAt >= s.entries[r.key].expiresAt
  }

  /** One purge removes exactly the expired entries if and only if no due record
      carries the version of an entry that is still live. */
  lemma PurgeExactIff(s: State, now: int, owned: set<Key>)
    requires Valid(s)
    ensures PurgeExact(s, now, owned) <==>
      forall r | r in s.heap :: r.expiresAt <= now && Matches(s, r) ==> s.entries[r.key].expiresAt <= now
  {
    hide Purge, Ordered, HeapSorted, Numbered, Covered, HasRecord, Keep;
    PurgeRemoves(s, now, owned);
    PurgeKeeps(s, now, owned);
    var t := Purge(s, now, owned);
    var plain := PlainPurge(Abstract(s), now);
    if forall r | r in s.heap :: r.expiresAt <= now && Matches(s, r) ==> s.entries[r.key].expiresAt <= now {
      forall k ensures k in t.entries <==> k in plain.items {
        if k in s.entries && s.entries[k].expiresAt <= now {
          assert k !in t.entries;
        }
        if k in s.entries && k !in t.entries {
          assert HasDueMatch(s, k, now);
        }
      }
      assert t.entries.Keys == plain.items.Keys;
      assert Abstract(t).items == plain.items;
    } else {
      var r :| r in s.heap && r.expiresAt <= now && Matches(s, r) && s.entries[r.key].expiresAt > now;
      assert HasDueMatch(s, r.key, now);
      assert r.key !in Abstract(t).items && r.key in plain.items;
    }
  }

  ghost predicate AlwaysExact(s: State, owned: set<Key>) {
    forall now: int :: PurgeExact(s, now, owned)
  }

  /** Purges are exact at every time if and only if there is no early alias. */
  lemma AlwaysExactIff(s: State, owned: set<Key>)
    requires Valid(s)
    ensures AlwaysExact(s, owned) <==> NoEarlyAlias(s)
  {
    hide PurgeExact;
    if NoEarlyAlias(s) {
      forall now: int ensures PurgeExact(s, now, owned) {
        PurgeExactIff(s, now, owned);
      }
    } else {
      var r :| r in s.heap && Matches(s, r) && r.expiresAt < s.entries[r.key].expiresAt;
      PurgeExactIff(s, r.expiresAt, owned);
    }
  }

  // ----- which stores create an early alias -----

  /** What a caller can check before a store: in the purged heap there is no
      earlier record with the version number the store will assign, or the heap
      is full enough that the store rebuilds it. */
  predicate StoreSafe(s: State, key: Key, ttl: int, now: int, owned: set<Key>) {
    var p := Purge(s, now, owned);
    || |p.heap| + 1 > 2 * s.maxSize
    || forall r | r in p.heap :: r.key == key && r.version == Version(p, key) + 1 ==> r.expiresAt >= now + ttl
  }

  lemma PurgeKeepsNoAlias(s: State, now: int, owned: set<Key>)
    requires Loose(s) && NoEarlyAlias(s)
    ensures NoEarlyAlias(Purge(s, now, owned))
  {
    PurgeKeeps(s, now, owned);
  }

  lemma EvictKeepsHeap(s: State, owned: set<Key>)
    requires Loose(s)
    ensures Evict(s, owned).heap == s.heap && Evict(s, owned).maxSize == s.maxSize
    ensures forall k | k in Evict(s, owned).entries :: k in s.entries && Evict(s, owned).entries[k] == s.entries[k]
  {
    EvictKeeps(s, owned);
  }

  lemma StoreNoAliasIff(s: State, key: Key, value: Val, ttl: int, now: int, owned: set<Key>)
    requires Valid(s) && NoEarlyAlias(s)
    ensures NoEarlyAlias(Store(s, key, value, ttl, now, owned)) <==> StoreSafe(s, key, ttl, now, owned)
  {
    hide Ordered, HeapSorted, Numbered, Covered, HasRecord, Purge, Evict, Store, Push, Without;
    StoreSteps(s, key, value, ttl, now, owned);
    PurgeKeeps(s, now, owned);
    PurgeKeepsNoAlias(s, now, owned);
    var p := Purge(s, now, owned);
    var q := Insert(p, key, value, now + ttl);
    var added := Record(now + ttl, p.sequence + 1, key, Version(p, key) + 1);
    InsertKeeps(p, key, value, now + ttl);
    PushFacts(p.heap, added);
    EvictKeepsHeap(q, owned);
    EvictKeepsNewest(q, owned);
    var e := Evict(q, owned);
    assert q.order[|q.order| - 1] == key;
    if |e.heap| > 2 * s.maxSize {
      RebuildHasNoAlias(e);
    } else {
      forall r | r in p.heap && Matches(e, r) && r.key != key ensures r.expiresAt >= e.entries[r.key].expiresAt {
        assert Matches(p, r);
      }
      if !StoreSafe(s, key, ttl, now, owned) {
        var r :| r in p.heap && r.key == key && r.version == Version(p, key) + 1 && r.expiresAt < now + ttl;
        assert r in e.heap && Matches(e, r);
      }
    }
  }

  lemma RebuildHasNoAlias(s: State)
    requires Ordered(s)
    ensures NoEarlyAlias(Rebuild(s))
  {
    var records := LiveRecords(s.entries, s.order, s.sequence);
    LiveRecordsFacts(s.entries, s.order, s.sequence);
    HeapifyFacts(records);
  }

  // ----- each operation refines its plain counterpart -----

  lemma EvictOneRefines(s: State, owned: set<Key>)
    requires s.order != []
    ensures Abstract(EvictOne(s, owned))
         == Plain(s.maxSize, s.order[1..], Abstract(s).items - {s.order[0]})
    ensures Abstract(s).order == s.order && Abstract(s).maxSize == s.maxSize
    ensures |EvictOne(s, owned).order| == |s.order| - 1
  {
    assert Abstract(EvictOne(s, owned)).items == Abstract(s).items - {s.order[0]};
  }

  lemma {:induction false} PlainEvictRefines(s: State, owned: set<Key>)
    requires Ordered(s)
    ensures Abstract(Evict(s, owned)) == PlainEvict(Abstract(s))
    decreases |s.order|
  {
    if |s.order| > s.maxSize {
      hide Ordered, EvictOne, Abstract;
      EvictOneOrdered(s, owned);
      EvictOneRefines(s, owned);
      PlainEvictRefines(EvictOne(s, owned), owned);
    }
  }

  lemma StoreRefines(s: State, key: Key, value: Val, ttl: int, now: int, owned: set<Key>)
    requires Valid(s) && NoEarlyAlias(s)
    ensures Abstract(Store(s, key, value, ttl, now, owned)) == PlainStore(Abstract(s), key, value, ttl, now)
  {
    hide Ordered, HeapSorted, Numbered, Covered, HasRecord, Purge, Evict, Store, Push, Without, PlainPurge, PlainEvict,
      NoEarlyAlias;
    StoreSteps(s, key, value, ttl, now, owned);
    AlwaysExactIff(s, owned);
    assert PurgeExact(s, now, owned);
    var p := Purge(s, now, owned);
    var q := Insert(p, key, value, now + ttl);
    assert Abstract(q).items == Abstract(p).items[key := Written(value, now + ttl)];
    PlainEvictRefines(q, owned);
  }

  lemma GetRefines(s: State, key: Key, now: int, owned: set<Key>)
    requires Valid(s) && NoEarlyAlias(s)
    ensures var (t, r) := Get(s, key, now, owned);
      (Abstract(t), r) == PlainGet(Abstract(s), key, now)
  {
    hide Purge, PlainPurge, NoEarlyAlias;
    AlwaysExactIff(s, owned);
    assert PurgeExact(s, now, owned);
  }

  lemma InvalidateRefines(s: State, key: Key, now: int, owned: set<Key>)
    requires Valid(s) && NoEarlyAlias(s)
    ensures var (t, r) := Invalidate(s, key, now, owned);
      (Abstract(t), r) == PlainInvalidate(Abstract(s), key, now)
  {
    hide Purge, PlainPurge, NoEarlyAlias;
    AlwaysExactIff(s, owned);
    assert PurgeExact(s, now, owned);
    var p := Purge(s, now, owned);
    assert Abstract(RemoveEntry(p, key)).items == Abstract(p).items - {key};
  }

  // ----- whole runs -----

  function PlainApply(p: Plain, op: Op): Plain {
    match op
    case PurgeOp(now) => PlainPurge(p, now)
    case GetOp(key, now) => PlainGet(p, key, now).0
    case StoreOp(key, value, ttl, now) => PlainStore(p, key, value, ttl, now)
    case InvalidateOp(key, now) => PlainInvalidate(p, key, now).0
    case ClearOp => Plain(p.maxSize, [], map[])
    case BumpOp(_) => p
    case DropOp(_) => p
  }

  function PlainRun(maxSize: nat, calls: seq<Call>): Plain {
    if calls == [] then Plain(maxSize, [], map[])
    else PlainApply(PlainRun(maxSize, calls[..|calls| - 1]), calls[|calls| - 1].op)
  }

  ghost predicate CallSafe(s: State, c: Call) {
    c.op.StoreOp? ==> StoreSafe(s, c.op.key, c.op.ttl, c.op.now, c.owned)
  }

  /** Every store of the run was safe in the state it met. */
  ghost predicate RunSafe(maxSize: nat, calls: seq<Call>)
    requires maxSize >= 1
  {
    forall i | 0 <= i < |calls| :: CallSafe(Run(maxSize, calls[..i]), calls[i])
  }

  lemma ApplyNoAliasIff(s: State, c: Call)
    requires Valid(s) && NoEarlyAlias(s)
    ensures NoEarlyAlias(Apply(s, c)) <==> CallSafe(s, c)
  {
    hide Purge, Store, StoreSafe, Without;
    match c.op
    case PurgeOp(now) => PurgeKeepsNoAlias(s, now, c.owned);
    case GetOp(key, now) => PurgeKeepsNoAlias(s, now, c.owned);
    case StoreOp(key, value, ttl, now) => StoreNoAliasIff(s, key, value, ttl, now, c.owned);
    case InvalidateOp(key, now) => PurgeKeepsNoAlias(s, now, c.owned);
    case ClearOp =>
    case BumpOp(key) =>
    case DropOp(key) =>
  }

  lemma ApplyRefines(s: State, c: Call)
    requires Valid(s) && NoEarlyAlias(s)
    ensures Abstract(Apply(s, c)) == PlainApply(Abstract(s), c.op)
  {
    hide Purge, PlainPurge, NoEarlyAlias, Store, PlainStore;
    match c.op
    case PurgeOp(now) => AlwaysExactIff(s, c.owned); assert PurgeExact(s, now, c.owned);
    case GetOp(key, now) => GetRefines(s, key, now, c.owned);
    case StoreOp(key, value, ttl, now) => StoreRefines(s, key, value, ttl, now, c.owned);
    case InvalidateOp(key, now) => InvalidateRefines(s, key, now, c.owned);
    case ClearOp =>
    case BumpOp(key) =>
    case DropOp(key) =>
  }

  /** A run whose stores were all safe leaves exactly the plain cache: the same
      keys, values, deadlines and recency order, rebuilds included. */
  lemma {:induction false} SafeRunRefines(maxSize: nat, calls: seq<Call>)
    requires maxSize >= 1 && RunSafe(maxSize, calls)
    ensures NoEarlyAlias(Run(maxSize, calls))
    ensures Abstract(Run(maxSize, calls)) == PlainRun(maxSize, calls)
  {
    hide CallSafe, Apply, PlainApply, Valid;
    if calls != [] {
      var init, c := calls[..|calls| - 1], calls[|calls| - 1];
      forall i | 0 <= i < |init| ensures CallSafe(Run(maxSize, init[..i]), init[i]) {
        assert init[..i] == calls[..i] && init[i] == calls[i];
      }
      SafeRunRefines(maxSize, init);
      assert CallSafe(Run(maxSize, init), c);
      ApplyNoAliasIff(Run(maxSize, init), c);
      ApplyRefines(Run(maxSize, init), c);
    }
  }

  /** From every prefix of a run a purge at any time would be exact, if and only if
      every store of the run was safe. */
  lemma {:induction false} RunExactIff(maxSize: nat, calls: seq<Call>, owned: set<Key>)
    requires maxSize >= 1
    ensures (forall i | 0 <= i <= |calls| :: AlwaysExact(Run(maxSize, calls[..i]), owned))
       <==> RunSafe(maxSize, calls)
  {
    hide AlwaysExact, CallSafe, Run, NoEarlyAlias, Apply, Valid;
    if RunSafe(maxSize, calls) {
      forall i | 0 <= i <= |calls| ensures AlwaysExact(Run(maxSize, calls[..i]), owned) {
        forall j | 0 <= j < i ensures CallSafe(Run(maxSize, calls[..i][..j]), calls[..i][j]) {
          assert calls[..i][..j] == calls[..j];
        }
        SafeRunRefines(maxSize, calls[..i]);
        AlwaysExactIff(Run(maxSize, calls[..i]), owned);
      }
    }
    if forall i | 0 <= i <= |calls| :: AlwaysExact(Run(maxSize, calls[..i]), owned) {
      forall i | 0 <= i < |calls| ensures CallSafe(Run(maxSize, calls[..i]), calls[i]) {
        AlwaysExactIff(Run(maxSize, calls[..i]), owned);
        AlwaysExactIff(Run(maxSize, calls[..i + 1]), owned);
        RunStep(maxSize, calls, i);
        ApplyNoAliasIff(Run(maxSize, calls[..i]), calls[i]);
      }
    }
  }

  lemma RunStep(maxSize: nat, calls: seq<Call>, i: nat)
    requires maxSize >= 1 && i < |calls|
    ensures Run(maxSize, calls[..i + 1]) == Apply(Run(maxSize, calls[..i]), calls[i])
  {
    assert calls[..i + 1][..i] == calls[..i];
  }

  /** After the first `i` calls and a purge at `now` the cache is the plain one. */
  ghost predicate AgreesAt(maxSize: nat, calls: seq<Call>, i: nat, now: int, owned: set<Key>)
    requires maxSize >= 1 && i <= |calls|
  {
    var probed := calls[..i] + [Call(PurgeOp(now), owned)];
    Abstract(Run(maxSize, probed)) == PlainRun(maxSize, probed)
  }

  lemma ProbeStep(maxSize: nat, calls: seq<Call>, i: nat, now: int, owned: set<Key>)
    requires maxSize >= 1 && i <= |calls|
    ensures AgreesAt(maxSize, calls, i, now, owned) <==>
      Abstract(Purge(Run(maxSize, calls[..i]), now, owned)) == PlainPurge(PlainRun(maxSize, calls[..i]), now)
  {
    hide Abstract, PlainPurge, Purge;
    var probed := calls[..i] + [Call(PurgeOp(now), owned)];
    assert probed[..|probed| - 1] == calls[..i];
  }

  lemma SafePrefix(maxSize: nat, calls: seq<Call>, i: nat)
    requires maxSize >= 1 && i <= |calls|
    requires forall j | 0 <= j < i :: CallSafe(Run(maxSize, calls[..j]), calls[j])
    ensures RunSafe(maxSize, calls[..i])
  {
    hide CallSafe, Run;
    forall j | 0 <= j < i ensures CallSafe(Run(maxSize, calls[..i][..j]), calls[..i][j]) {
      assert calls[..i][..j] == calls[..j];
    }
  }

  lemma FirstUnsafe(maxSize: nat, calls: seq<Call>, n: nat) returns (i: nat)
    requires maxSize >= 1 && n <= |calls|
    requires exists j | 0 <= j < n :: !CallSafe(Run(maxSize, calls[..j]), calls[j])
    ensures i < n && !CallSafe(Run(maxSize, calls[..i]), calls[i]) && RunSafe(maxSize, calls[..i])
  {
    hide CallSafe, Run, RunSafe;
    if exists j | 0 <= j < n - 1 :: !CallSafe(Run(maxSize, calls[..j]), calls[j]) {
      i := FirstUnsafe(maxSize, calls, n - 1);
    } else {
      i := n - 1;
      SafePrefix(maxSize, calls, i);
    }
  }

  /** An unsafe store leaves the plain cache's contents, but some later purge of them
      is wrong. */
  lemma UnsafeStoreShows(maxSize: nat, calls: seq<Call>, i: nat, owned: set<Key>) returns (now: int)
    requires maxSize >= 1 && i < |calls|
    requires RunSafe(maxSize, calls[..i]) && !CallSafe(Run(maxSize, calls[..i]), calls[i])
    ensures !AgreesAt(maxSize, calls, i + 1, now, owned)
  {
    hide CallSafe, Run, RunSafe, Apply, PlainApply, NoEarlyAlias, Valid, Abstract, PlainPurge, Purge;
    SafeRunRefines(maxSize, calls[..i]);
    var s := Run(maxSize, calls[..i]);
    ApplyNoAliasIff(s, calls[i]);
    ApplyRefines(s, calls[i]);
    RunStep(maxSize, calls, i);
    PlainRunStep(maxSize, calls, i);
    var t := Run(maxSize, calls[..i + 1]);
    AlwaysExactIff(t, owned);
    now :| !PurgeExact(t, now, owned);
    ProbeStep(maxSize, calls, i + 1, now, owned);
  }

  lemma PlainRunStep(maxSize: nat, calls: seq<Call>, i: nat)
    requires i < |calls|
    ensures PlainRun(maxSize, calls[..i + 1]) == PlainApply(PlainRun(maxSize, calls[..i]), calls[i].op)
  {
    assert calls[..i + 1][..i] == calls[..i];
  }

  /** The cache is the plain one after every prefix of a run and a purge at any time,
      if and only if every store of the run was safe. */
  lemma RunAgreesIff(maxSize: nat, calls: seq<Call>, owned: set<Key>)
    requires maxSize >= 1
    ensures (forall i, now | 0 <= i <= |calls| :: AgreesAt(maxSize, calls, i, now, owned)) <==> RunSafe(maxSize, calls)
  {
    hide CallSafe, Run, AgreesAt, Abstract, PlainPurge, Purge, NoEarlyAlias, Valid;
    if RunSafe(maxSize, calls) {
      forall i, now | 0 <= i <= |calls| ensures AgreesAt(maxSize, calls, i, now, owned) {
        SafePrefix(maxSize, calls, i);
        SafeRunRefines(maxSize, calls[..i]);
        AlwaysExactIff(Run(maxSize, calls[..i]), owned);
        assert PurgeExact(Run(maxSize, calls[..i]), now, owned);
        ProbeStep(maxSize, calls, i, now, owned);
      }
    } else {
      var i := FirstUnsafe(maxSize, calls, |calls|);
      var now := UnsafeStoreShows(maxSize, calls, i, owned);
    }
  }

  // ----- the failing family is not empty -----

  function SetInvalidateSet(k: Key, v: Val, w: Val): seq<Call> {
    [Call(StoreOp(k, v, 1, 0), {}), Call(InvalidateOp(k, 0), {}), Call(StoreOp(k, w, 100, 0), {})]
  }

  lemma FirstSet(maxSize: nat, k: Key, v: Val)
    requires maxSize >= 1
    ensures Store(Initial(maxSize), k, v, 1, 0, {})
         == State(maxSize, map[k := Entry(v, 1, 1)], [k], [Record(1, 1, k, 1)], map[k := 1], 0, 0, 1, ZeroCounters)
    ensures PlainStore(Plain(maxSize, [], map[]), k, v, 1, 0) == Plain(maxSize, [k], map[k := Written(v, 1)])
  {
    assert PlainPurge(Plain(maxSize, [], map[]), 0) == Plain(maxSize, [], map[]);
  }

  lemma ThenInvalidate(maxSize: nat, k: Key, v: Val, s: State)
    requires s ==
        State(maxSize, map[k := Entry(v, 1, 1)], [k], [Record(1, 1, k, 1)], map[k := 1], 0, 0, 1, ZeroCounters)
    ensures var t := Invalidate(s, k, 0, {}).0;
      t == State(maxSize, map[], [], [Record(1, 1, k, 1)], map[], 0, 0, 1, ZeroCounters.(invalidations := 1))
    ensures PlainInvalidate(Plain(maxSize, [k], map[k := Written(v, 1)]), k, 0).0 == Plain(maxSize, [], map[])
  {
    assert Without([k], k) == [];
    var p := Plain(maxSize, [k], map[k := Written(v, 1)]);
    KeepAll(p.order, p.items.Keys);
    assert PlainPurge(p, 0).items == p.items;
  }

  lemma ThenSet(maxSize: nat, k: Key, w: Val, s: State)
    requires maxSize >= 1
    requires s == State(maxSize, map[], [], [Record(1, 1, k, 1)], map[], 0, 0, 1, ZeroCounters.(invalidations := 1))
    ensures var t := Store(s, k, w, 100, 0, {});
      && t.heap == [Record(1, 1, k, 1), Record(100, 2, k, 1)] && t.entries == map[k := Entry(w, 100, 1)]
      && Get(t, k, 2, {}).1 == None
    ensures var p := PlainStore(Plain(maxSize, [], map[]), k, w, 100, 0);
      p == Plain(maxSize, [k], map[k := Written(w, 100)]) && PlainGet(p, k, 2).1 == Some(w)
  {
    var t := Store(s, k, w, 100, 0, {});
    assert Purge(s, 0, {}) == s;
    assert Push(s.heap, Record(100, 2, k, 1)) == [Record(1, 1, k, 1), Record(100, 2, k, 1)];
    assert t.heap == [Record(1, 1, k, 1), Record(100, 2, k, 1)] && t.entries == map[k := Entry(w, 100, 1)];
    assert k !in PopRecord(t, {}).entries;
    assert Purge(t, 2, {}) == PopRecord(t, {});
    assert PlainPurge(Plain(maxSize, [], map[]), 0) == Plain(maxSize, [], map[]);
  }

  /** Set, invalidate, set again: the first set's record removes the second
      set's entry 98 ticks before its deadline, while the plain cache has it. */
  lemma SetInvalidateSetLosesLiveData(maxSize: nat, k: Key, v: Val, w: Val)
    requires maxSize >= 1
    ensures var calls := SetInvalidateSet(k, v, w);
      && LedgerOf(calls)[k] == Written(w, 100)
      && Get(Run(maxSize, calls), k, 2, {}).1 == None
      && PlainGet(PlainRun(maxSize, calls), k, 2).1 == Some(w)
  {
    hide Store, Invalidate, Get, Purge, PlainStore, PlainInvalidate, PlainPurge, PlainGet;
    var calls := SetInvalidateSet(k, v, w);
    assert calls[..2] == [calls[0], calls[1]] && calls[..2][..1] == [calls[0]] && calls[..2][..1][..0] == [];
    FirstSet(maxSize, k, v);
    var s1 := Store(Initial(maxSize), k, v, 1, 0, {});
    assert Run(maxSize, calls[..2][..1]) == s1;
    ThenInvalidate(maxSize, k, v, s1);
    assert Run(maxSize, calls[..2]) == Invalidate(s1, k, 0, {}).0;
    ThenSet(maxSize, k, w, Invalidate(s1, k, 0, {}).0);
    assert PlainRun(maxSize, calls[..2][..1]) == PlainStore(Plain(maxSize, [], map[]), k, v, 1, 0);
  }
}
