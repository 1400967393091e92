/** The key repository: immutable snapshots with an epoch, replaced by each lifecycle
    operation. */
module JwtKeys {
  import opened Wrappers

  type Kid(==,!new)
  type Algorithm(==,!new)
  type Material(==,!new)

  datatype Key = Key(kid: Kid, algorithm: Algorithm, canSign: bool, material: Material)

  datatype Status = ACTIVE | RETIRED | REVOKED

  datatype Entry = Entry(status: Status, key: Option<Key>)

  datatype Snapshot = Snapshot(entries: map<Kid, Entry>, epoch: nat)

  datatype Repository = Repository(snapshot: Snapshot, algorithm: Option<Algorithm>)

  datatype KeyError = KeyState | Configuration

  /** An identifier argument that fails its checks is `None`. */
  datatype Operation =
    | AddVerificationKey(key: Key)
    | Rotate(key: Key)
    | Retire(kid: Option<Kid>)
    | Revoke(kid: Option<Kid>)

  const Tombstone := Entry(REVOKED, None)

  /** The active key steps down. */
  function StepDown(entries: map<Kid, Entry>): map<Kid, Entry> {
    map k | k in entries :: if entries[k].status == ACTIVE then Entry(RETIRED, entries[k].key) else entries[k]
  }

  function MutateKey(r: Repository, key: Key, active: bool): Result<Repository, KeyError> {
    if active && !key.canSign then Fail(KeyState)
    else if key.kid in r.snapshot.entries then Fail(KeyState)
    else if r.algorithm.Some? && key.algorithm != r.algorithm.value then Fail(Configuration)
    else
      var entries := if active then StepDown(r.snapshot.entries) else r.snapshot.entries;
      var entry := Entry(if active then ACTIVE else RETIRED, Some(key));
      Ok(Repository(Snapshot(entries[key.kid := entry], r.snapshot.epoch + 1), Some(key.algorithm)))
  }

  function MutateIdentifier(r: Repository, kid: Option<Kid>, retire: bool): Result<Repository, KeyError> {
    if kid.None? then Fail(Configuration)
    else if kid.value !in r.snapshot.entries then Fail(KeyState)
    else
      var entry := r.snapshot.entries[kid.value];
      if retire && entry.status != ACTIVE then Fail(KeyState)
      else if !retire && entry.status == REVOKED then Fail(KeyState)
      else
        var replacement := if retire then Entry(RETIRED, entry.key) else Tombstone;
        Ok(r.(snapshot := Snapshot(r.snapshot.entries[kid.value := replacement], r.snapshot.epoch + 1)))
  }

  function Mutate(r: Repository, op: Operation): Result<Repository, KeyError> {
    match op
    case AddVerificationKey(key) => MutateKey(r, key, false)
    case Rotate(key) => MutateKey(r, key, true)
    case Retire(kid) => MutateIdentifier(r, kid, true)
    case Revoke(kid) => MutateIdentifier(r, kid, false)
  }

  /** Tombstones hold no key, everything else holds its own; at most one key is
      active, and every key has the repository's algorithm. */
  ghost predicate Valid(r: Repository) {
    && (forall k :: k in r.snapshot.entries ==> ValidEntry(k, r.snapshot.entries[k], r.algorithm))
    && (forall j, k :: IsActive(r, j) && IsActive(r, k) ==> j == k)
  }

  predicate IsActive(r: Repository, k: Kid) {
    k in r.snapshot.entries && r.snapshot.entries[k].status == ACTIVE
  }

  predicate ValidEntry(k: Kid, e: Entry, algorithm: Option<Algorithm>) {
    && (e.status == REVOKED <==> e.key.None?)
    && (e.key.Some? ==> e.key.value.kid == k && algorithm == Some(e.key.value.algorithm))
    && (e.status == ACTIVE ==> e.key.value.canSign)
  }

  /** What a later repository may have done to an earlier one's keys: an identifier
      stays, its key stays or becomes a tombstone, and tombstones stay. */
  ghost predicate Succeeds(a: Snapshot, b: Snapshot) {
    && a.epoch <= b.epoch
    && (forall k :: k in a.entries ==>
          && k in b.entries
          && (b.entries[k].key == a.entries[k].key || b.entries[k] == Tombstone)
          && (a.entries[k] == Tombstone ==> b.entries[k] == Tombstone)
          && (a.entries[k].status != ACTIVE ==> b.entries[k].status != ACTIVE))
    && (a.epoch == b.epoch ==> a == b)
  }

  lemma MutateKeeps(r: Repository, op: Operation)
    requires Valid(r)
    ensures Mutate(r, op).Ok? ==>
      var t := Mutate(r, op).value;
      Valid(t) && Succeeds(r.snapshot, t.snapshot) && t.snapshot.epoch == r.snapshot.epoch + 1
  {
    if Mutate(r, op).Ok? {
      var t := Mutate(r, op).value;
      forall j, k | IsActive(t, j) && IsActive(t, k) ensures j == k {
        if op.Rotate? {
          assert j == op.key.kid && k == op.key.kid;
        } else {
          assert IsActive(r, j) && IsActive(r, k);
        }
      }
    }
  }

  /** The identifier an operation is about. */
  function Subject(op: Operation): Option<Kid> {
    match op
    case AddVerificationKey(key) => Some(key.kid)
    case Rotate(key) => Some(key.kid)
    case Retire(kid) => kid
    case Revoke(kid) => kid
  }

  /** What each operation leaves at its own identifier, and what it asks of it. */
  ghost predicate Leaves(before: Snapshot, after: Snapshot, op: Operation) {
    match op
    case AddVerificationKey(key) =>
      key.kid !in before.entries && key.kid in after.entries && after.entries[key.kid] == Entry(RETIRED, Some(key))
    case Rotate(key) =>
      && key.canSign && key.kid !in before.entries
      && key.kid in after.entries && after.entries[key.kid] == Entry(ACTIVE, Some(key))
    case Retire(kid) =>
      && kid.Some? && kid.value in before.entries && before.entries[kid.value].status == ACTIVE
      && kid.value in after.entries && after.entries[kid.value] == Entry(RETIRED, before.entries[kid.value].key)
    case Revoke(kid) =>
      && kid.Some? && kid.value in before.entries && before.entries[kid.value].status != REVOKED
      && kid.value in after.entries && after.entries[kid.value] == Tombstone
  }

  predicate SameAlgorithm(r: Repository, key: Key) {
    r.algorithm.Some? ==> r.algorithm.value == key.algorithm
  }

  /** An operation makes its own change and no other, except that a rotation retires
      the key that was active, which keeps its material.  It is refused exactly when
      its identifier or key does not allow it. */
  lemma OperationEffect(r: Repository, op: Operation)
    requires Valid(r)
    ensures Mutate(r, op).Ok? ==>
      var a, b := r.snapshot, Mutate(r, op).value.snapshot;
      && Leaves(a, b, op)
      && b.entries.Keys == a.entries.Keys + {Subject(op).value}
      && (forall k :: k in a.entries && Some(k) != Subject(op) ==>
            b.entries[k] == if op.Rotate? && IsActive(r, k) then Entry(RETIRED, a.entries[k].key) else a.entries[k])
    ensures Mutate(r, op).Fail? <==>
      match op
      case AddVerificationKey(key) =>
        key.kid in r.snapshot.entries || !SameAlgorithm(r, key)
      case Rotate(key) =>
        !key.canSign || key.kid in r.snapshot.entries || !SameAlgorithm(r, key)
      case Retire(kid) => kid.None? || !IsActive(r, kid.value)
      case Revoke(kid) =>
        kid.None? || kid.value !in r.snapshot.entries || r.snapshot.entries[kid.value].status == REVOKED
    ensures Mutate(r, op) == Fail(Configuration) <==>
      match op
      case AddVerificationKey(key) => key.kid !in r.snapshot.entries && !SameAlgorithm(r, key)
      case Rotate(key) => key.canSign && key.kid !in r.snapshot.entries && !SameAlgorithm(r, key)
      case Retire(kid) => kid.None?
      case Revoke(kid) => kid.None?
  {
  }

  lemma SucceedsReflexive(s: Snapshot)
    ensures Succeeds(s, s)
  {
  }

  lemma SucceedsTransitive(a: Snapshot, b: Snapshot, c: Snapshot)
    requires Succeeds(a, b) && Succeeds(b, c)
    ensures Succeeds(a, c)
  {
  }

  /** Entry by entry, in whatever order the dictionary gives them. */
  method RetireActive(before: map<Kid, Entry>) returns (entries: map<Kid, Entry>)
    ensures entries == StepDown(before)
  {
    entries := before;
    var kids := entries.Keys;
    while kids != {}
      invariant kids <= before.Keys == entries.Keys
      invariant forall k :: k in kids ==> entries[k] == before[k]
      invariant forall k :: k in before && k !in kids ==> entries[k] == StepDown(before)[k]
      decreases |kids|
    {
      var k :| k in kids;
      if entries[k].status == ACTIVE { entries := entries[k := Entry(RETIRED, entries[k].key)]; }
      kids := kids - {k};
    }
  }

  /** Initial keys: the active one can sign, identifiers differ, one algorithm. */
  ghost predicate Installable(active: Option<Key>, keys: seq<Key>) {
    (active.Some? ==> active.value.canSign) && Compatible(First(active) + keys)
  }

  function First(active: Option<Key>): seq<Key> {
    if active.Some? then [active.value] else []
  }

  ghost predicate Compatible(all: seq<Key>) {
    forall i, j :: 0 <= i < j < |all| ==> all[i].kid != all[j].kid && all[i].algorithm == all[j].algorithm
  }

  /** What a repository constructed from these keys holds. */
  ghost predicate Holds(r: Repository, active: Option<Key>, keys: seq<Key>) {
    && r.snapshot.epoch == 0
    && (active.Some? ==>
          active.value.kid in r.snapshot.entries && r.snapshot.entries[active.value.kid] == Entry(ACTIVE, active))
    && (forall i :: 0 <= i < |keys| ==>
          keys[i].kid in r.snapshot.entries && r.snapshot.entries[keys[i].kid] == Entry(RETIRED, Some(keys[i])))
    && (forall k :: k in r.snapshot.entries ==>
          (active.Some? && active.value.kid == k) || exists i :: 0 <= i < |keys| && keys[i].kid == k)
    && (r.algorithm.None? <==> active.None? && keys == [])
  }

  function Added(r: Repository, key: Key): Repository {
    Repository(Snapshot(r.snapshot.entries[key.kid := Entry(RETIRED, Some(key))], 0), Some(key.algorithm))
  }

  /** The checks on one more key are those of the loop. */
  lemma InstallableNext(r: Repository, active: Option<Key>, keys: seq<Key>, key: Key)
    requires Valid(r) && Holds(r, active, keys) && Installable(active, keys)
    ensures Installable(active, keys + [key]) <==>
        key.kid !in r.snapshot.entries && (r.algorithm.Some? ==> r.algorithm.value == key.algorithm)
  {
    var first := First(active);
    var all, more := first + keys, first + (keys + [key]);
    assert more == all + [key];
    assert forall i :: 0 <= i < |all| ==>
        more[i] == all[i] && all[i].kid in r.snapshot.entries && r.algorithm == Some(all[i].algorithm);
    if key.kid in r.snapshot.entries {
      if active.Some? && active.value.kid == key.kid {
        assert more[0].kid == more[|all|].kid;
      } else {
        var i :| 0 <= i < |keys| && keys[i].kid == key.kid;
        assert more[|first| + i].kid == more[|all|].kid;
      }
    }
    if all != [] { assert Compatible(more) ==> more[0].algorithm == more[|all|].algorithm; }
  }

  lemma HoldsNext(r: Repository, active: Option<Key>, keys: seq<Key>, key: Key)
    requires Valid(r) && Holds(r, active, keys)
    requires key.kid !in r.snapshot.entries && (r.algorithm.Some? ==> r.algorithm.value == key.algorithm)
    ensures Valid(Added(r, key)) && Holds(Added(r, key), active, keys + [key])
  {
    var t := Added(r, key);
    assert Valid(t) by {
      assert forall k :: IsActive(t, k) ==> IsActive(r, k);
    }
    hide Valid;
    assert (keys + [key])[|keys|].kid == key.kid;
    forall k | k in t.snapshot.entries
      ensures (active.Some? && active.value.kid == k) ||
          exists i :: 0 <= i < |keys + [key]| && (keys + [key])[i].kid == k
    {
      if k != key.kid && !(active.Some? && active.value.kid == k) {
        var i :| 0 <= i < |keys| && keys[i].kid == k;
        assert (keys + [key])[i].kid == k;
      }
    }
  }

  /** The constructor's checks, and the state it leaves: `Fail` is its exception. */
  method InitialRepository(active: Option<Key>, candidates: seq<Key>) returns (r: Result<Repository, KeyError>)
    ensures r.Ok? <==> Installable(active, candidates)
    ensures r.Ok? ==> Valid(r.value) && Holds(r.value, active, candidates)
  {
    hide Valid, Holds, Installable;
    var entries: map<Kid, Entry> := map[];
    var algorithm: Option<Algorithm> := None;
    FirstKey(active);
    if active.Some? {
      if !active.value.canSign {
        NotInstallable(active, candidates, 0);
        return Fail(KeyState);
      }
      algorithm := Some(active.value.algorithm);
      entries := entries[active.value.kid := Entry(ACTIVE, active)];
    }
    assert candidates[..0] == [];
    for i := 0 to |candidates|
      invariant Installable(active, candidates[..i])
      invariant Valid(Repository(Snapshot(entries, 0), algorithm)) &&
          Holds(Repository(Snapshot(entries, 0), algorithm), active, candidates[..i])
    {
      var key := candidates[i];
      ghost var r0 := Repository(Snapshot(entries, 0), algorithm);
      InstallableNext(r0, active, candidates[..i], key);
      assert candidates[..i + 1] == candidates[..i] + [key];
      if key.kid in entries {
        NotInstallable(active, candidates, i + 1);
        return Fail(KeyState);
      }
      if algorithm.None? {
        algorithm := Some(key.algorithm);
      } else if key.algorithm != algorithm.value {
        NotInstallable(active, candidates, i + 1);
        return Fail(Configuration);
      }
      HoldsNext(r0, active, candidates[..i], key);
      entries := entries[key.kid := Entry(RETIRED, Some(key))];
    }
    assert candidates[..|candidates|] == candidates;
    r := Ok(Repository(Snapshot(entries, 0), algorithm));
  }

  lemma FirstKey(active: Option<Key>)
    ensures Installable(active, []) <==> active.None? || active.value.canSign
    ensures Installable(active, []) ==>
      var entries := if active.Some? then map[active.value.kid := Entry(ACTIVE, active)] else map[];
      var r := Repository(Snapshot(entries, 0), if active.Some? then Some(active.value.algorithm) else None);
      Valid(r) && Holds(r, active, [])
  {
  }

  lemma NotInstallable(active: Option<Key>, keys: seq<Key>, n: nat)
    requires n <= |keys| && !Installable(active, keys[..n])
    ensures !Installable(active, keys)
  {
    var part, all := First(active) + keys[..n], First(active) + keys;
    assert forall i :: 0 <= i < |part| ==> part[i] == all[i];
  }

  class InMemoryKeyRepository {
    var snapshot: Snapshot
    var algorithm: Option<Algorithm>

    function View(): Repository reads this {
      Repository(snapshot, algorithm)
    }

    constructor (initial: Repository)
      requires Valid(initial) && initial.snapshot.epoch == 0
      ensures View() == initial
    {
      snapshot, algorithm := initial.snapshot, initial.algorithm;
    }

    /** A refused operation publishes nothing. */
    method ChangeKey(key: Key, active: bool) returns (r: Result<Snapshot, KeyError>)
      requires Valid(View())
      modifies this
      ensures Valid(View()) && Succeeds(old(snapshot), snapshot)
      ensures match MutateKey(old(View()), key, active)
        case Fail(error) => r == Fail(error) && View() == old(View())
        case Ok(t) => View() == t && r == Ok(snapshot)
    {
      hide Valid, Succeeds, StepDown;
      SucceedsReflexive(snapshot);
      MutateKeeps(View(), if active then Rotate(key) else AddVerificationKey(key));
      if active && !key.canSign { return Fail(KeyState); }
      if key.kid in snapshot.entries { return Fail(KeyState); }
      if algorithm.Some? && key.algorithm != algorithm.value { return Fail(Configuration); }
      var entries := snapshot.entries;
      if active {
        entries := RetireActive(entries);
      }
      entries := entries[key.kid := Entry(if active then ACTIVE else RETIRED, Some(key))];
      snapshot := Snapshot(entries, snapshot.epoch + 1);
      if algorithm.None? { algorithm := Some(key.algorithm); }
      r := Ok(snapshot);
    }

    method ChangeIdentifier(kid: Option<Kid>, retire: bool) returns (r: Result<Snapshot, KeyError>)
      requires Valid(View())
      modifies this
      ensures Valid(View()) && Succeeds(old(snapshot), snapshot)
      ensures match MutateIdentifier(old(View()), kid, retire)
        case Fail(error) => r == Fail(error) && View() == old(View())
        case Ok(t) => View() == t && r == Ok(snapshot)
      ensures r.Ok? && !retire ==> snapshot.entries[kid.value] == Tombstone
    {
      hide Valid, Succeeds;
      SucceedsReflexive(snapshot);
      MutateKeeps(View(), if retire then Retire(kid) else Revoke(kid));
      if kid.None? { return Fail(Configuration); }
      if kid.value !in snapshot.entries { return Fail(KeyState); }
      var entry := snapshot.entries[kid.value];
      var replacement;
      if retire {
        if entry.status != ACTIVE { return Fail(KeyState); }
        replacement := Entry(RETIRED, entry.key);
      } else {
        if entry.status == REVOKED { return Fail(KeyState); }
        replacement := Tombstone;
      }
      snapshot := Snapshot(snapshot.entries[kid.value := replacement], snapshot.epoch + 1);
      r := Ok(snapshot);
    }
  }
}
