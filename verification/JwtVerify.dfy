/** Verification with the verified-token cache: any number of verifications in
    progress, key operations between any two of their steps, and cache entries
    dropped at any time. */
module JwtVerify {
  import opened Wrappers
  import opened JwtKeys

  type Token(==,!new)
  type Claims(==,!new)
  type Digest(==,!new)

  datatype JwtError = Malformed | Unsupported | BadSignature | KeyUnavailable | BadClaims | BadToken

  datatype Checked<+T> = Good(value: T) | Bad(error: JwtError)

  /** The result a caller gets; the algorithm, type and headers are the profile's. */
  datatype Verified = Verified(kid: Kid, claims: Claims)

  /** The provider's algorithm and profile, and the foreign code it uses. */
  datatype Provider = Provider(
    algorithm: Algorithm,
    shaped: Token -> bool,
    header: Token -> Checked<Kid>,
    decode: (Token, Material) -> Checked<Claims>,
    validate: (Claims, int) -> Option<JwtError>,
    expiresAt: Claims -> Option<int>,
    digest: Token -> Digest)

  ghost predicate InjectiveDigest(p: Provider) {
    forall a, b :: p.digest(a) == p.digest(b) ==> a == b
  }

  // ----- without a cache -----

  /** Header, key and signature: everything that does not depend on the time. */
  function Signed(p: Provider, token: Token, s: Snapshot): Checked<Verified> {
    match p.header(token)
    case Bad(error) => Bad(error)
    case Good(kid) =>
      if kid !in s.entries || s.entries[kid].status == REVOKED || s.entries[kid].key.None? then Bad(KeyUnavailable)
      else
        var key := s.entries[kid].key.value;
        if key.algorithm != p.algorithm then Bad(Unsupported)
        else
          match p.decode(token, key.material)
          case Bad(error) => Bad(error)
          case Good(claims) => Good(Verified(key.kid, claims))
  }

  function Timely(p: Provider, v: Verified, now: int): Checked<Verified> {
    match p.validate(v.claims, now)
    case Some(error) => Bad(error)
    case None => Good(v)
  }

  /** What `verify` answers without a cache. */
  function Plain(p: Provider, token: Token, s: Snapshot, now: int): Checked<Verified> {
    if !p.shaped(token) then Bad(Malformed)
    else
      match Signed(p, token, s)
      case Bad(error) => Bad(error)
      case Good(v) => Timely(p, v, now)
  }

  // ----- the cache -----

  datatype CacheKey = CacheKey(digest: Digest, epoch: nat)

  datatype Cache = Cache(entries: map<CacheKey, Verified>, observed: Option<nat>)

  function KeyFor(p: Provider, token: Token, s: Snapshot): CacheKey {
    CacheKey(p.digest(token), s.epoch)
  }

  function Observe(c: Cache, epoch: nat): Cache {
    if c.observed.None? then c.(observed := Some(epoch))
    else if c.observed.value == epoch then c
    else Cache(map[], Some(epoch))
  }

  function Get(p: Provider, c: Cache, token: Token, s: Snapshot): (Cache, Option<Verified>) {
    var d := Observe(c, s.epoch);
    (d, if KeyFor(p, token, s) in d.entries then Some(d.entries[KeyFor(p, token, s)]) else None)
  }

  function Set(p: Provider, c: Cache, token: Token, s: Snapshot, v: Verified, now: int, live: nat): Cache {
    var d := Observe(c, live);
    if live != s.epoch then d
    else if p.expiresAt(v.claims).Some? && p.expiresAt(v.claims).value <= now then d
    else d.(entries := d.entries[KeyFor(p, token, s) := v])
  }

  class VerifiedTokenCache {
    var entries: map<CacheKey, Verified>
    var observed: Option<nat>

    function View(): Cache reads this {
      Cache(entries, observed)
    }

    constructor ()
      ensures View() == Cache(map[], None)
    {
      entries, observed := map[], None;
    }

    method ObserveEpoch(epoch: nat)
      modifies this
      ensures View() == Observe(old(View()), epoch)
      ensures forall k :: k in entries ==> k in old(entries) && entries[k] == old(entries[k])
    {
      if observed.None? {
        observed := Some(epoch);
        return;
      }
      if observed.value == epoch { return; }
      entries := map[];
      observed := Some(epoch);
    }

    method Lookup(p: Provider, token: Token, s: Snapshot) returns (r: Option<Verified>)
      modifies this
      ensures (View(), r) == Get(p, old(View()), token, s)
    {
      ObserveEpoch(s.epoch);
      var key := KeyFor(p, token, s);
      r := if key in entries then Some(entries[key]) else None;
    }

    method Store(p: Provider, token: Token, s: Snapshot, v: Verified, now: int, live: nat)
      modifies this
      ensures View() == Set(p, old(View()), token, s, v, now, live)
    {
      ObserveEpoch(live);
      if live != s.epoch { return; }
      if p.expiresAt(v.claims).Some? && p.expiresAt(v.claims).value <= now { return; }
      entries := entries[KeyFor(p, token, s) := v];
    }
  }

  /** A stored result is found again, for its own token and epoch, exactly if it was
      stored for the live epoch and is unexpired; nothing stored for another epoch is. */
  lemma StoredIsFound(p: Provider, c: Cache, token: Token, s: Snapshot, v: Verified, now: int, live: nat)
    ensures var stored := Set(p, c, token, s, v, now, live);
      var found := Get(p, stored, token, s).1;
      && (live != s.epoch ==> found.None? && stored.entries == Observe(c, live).entries)
      && (live == s.epoch && (p.expiresAt(v.claims).None? || p.expiresAt(v.claims).value > now) ==> found == Some(v))
      && (live == s.epoch && p.expiresAt(v.claims).Some? && p.expiresAt(v.claims).value <= now ==>
            stored == Observe(c, live))
  {
  }

  // ----- interleaved runs -----

  /** A verification between its lock-protected or repository-reading steps. */
  datatype Stage =
    | Captured
    | Missed
    | Computed(value: Verified)
    | Publishing(value: Verified, live: nat)
    | Answered(result: Checked<Verified>)

  datatype Verification = Verification(token: Token, snapshot: Snapshot, now: int, stage: Stage)

  /** `history` has the snapshot of every epoch so far. */
  datatype System = System(repository: Repository, history: seq<Snapshot>, cache: Cache,
    verifications: seq<Verification>)

  datatype Event =
    | Change(operation: Operation)
    | Begin(token: Token, now: int)
    | LookUp(call: nat)
    | Compute(call: nat)
    | ReadLive(call: nat)
    | Publish(call: nat)
    | Drop(key: CacheKey)

  function Move(w: System, i: nat, stage: Stage): System
    requires i < |w.verifications|
  {
    w.(verifications := w.verifications[i := w.verifications[i].(stage := stage)])
  }

  function Apply(p: Provider, w: System, e: Event): System {
    match e
    case Change(op) =>
      var r := Mutate(w.repository, op);
      if r.Ok? then w.(repository := r.value, history := w.history + [r.value.snapshot]) else w
    case Begin(token, now) =>
      var stage := if p.shaped(token) then Captured else Answered(Bad(Malformed));
      w.(verifications := w.verifications + [Verification(token, w.repository.snapshot, now, stage)])
    case LookUp(i) =>
      if i < |w.verifications| && w.verifications[i].stage.Captured? then
        var v := w.verifications[i];
        var (cache, hit) := Get(p, w.cache, v.token, v.snapshot);
        Move(w.(cache := cache), i, if hit.Some? then Answered(Timely(p, hit.value, v.now)) else Missed)
      else w
    case Compute(i) =>
      if i < |w.verifications| && w.verifications[i].stage.Missed? then
        var v := w.verifications[i];
        var r := Plain(p, v.token, v.snapshot, v.now);
        Move(w, i, if r.Good? then Computed(r.value) else Answered(r))
      else w
    case ReadLive(i) =>
      if i < |w.verifications| && w.verifications[i].stage.Computed? then
        Move(w, i, Publishing(w.verifications[i].stage.value, w.repository.snapshot.epoch))
      else w
    case Publish(i) =>
      if i < |w.verifications| && w.verifications[i].stage.Publishing? then
        var v := w.verifications[i];
        var cache := Set(p, w.cache, v.token, v.snapshot, v.stage.value, v.now, v.stage.live);
        Move(w.(cache := cache), i, Answered(Good(v.stage.value)))
      else w
    case Drop(key) => w.(cache := w.cache.(entries := w.cache.entries - {key}))
  }

  predicate HistoryOk(w: System) {
    && |w.history| == w.repository.snapshot.epoch + 1
    && w.history[|w.history| - 1] == w.repository.snapshot
    && forall e :: 0 <= e < |w.history| ==> w.history[e].epoch == e
  }

  ghost predicate HistorySucceeds(w: System) {
    forall d, e :: 0 <= d <= e < |w.history| ==> Succeeds(w.history[d], w.history[e])
  }

  predicate CallOk(p: Provider, w: System, v: Verification) {
    && v.snapshot.epoch < |w.history| && v.snapshot == w.history[v.snapshot.epoch]
    && match v.stage
       case Captured => p.shaped(v.token)
       case Missed => p.shaped(v.token)
       case Computed(value) => Plain(p, v.token, v.snapshot, v.now) == Good(value)
       case Publishing(value, _) => Plain(p, v.token, v.snapshot, v.now) == Good(value)
       case Answered(result) => result == Plain(p, v.token, v.snapshot, v.now)
  }

  predicate CallsOk(p: Provider, w: System) {
    forall i :: 0 <= i < |w.verifications| ==> CallOk(p, w, w.verifications[i])
  }

  /** A cached result is what its token's signature check gives at its epoch. */
  ghost predicate EntryOk(p: Provider, history: seq<Snapshot>, key: CacheKey, v: Verified) {
    && key.epoch < |history|
    && exists token :: MadeBy(p, history[key.epoch], key, v, token)
  }

  predicate MadeBy(p: Provider, s: Snapshot, key: CacheKey, v: Verified, token: Token) {
    p.digest(token) == key.digest && Signed(p, token, s) == Good(v)
  }

  ghost predicate CacheOk(p: Provider, w: System) {
    forall key :: key in w.cache.entries ==> EntryOk(p, w.history, key, w.cache.entries[key])
  }

  ghost predicate Inv(p: Provider, w: System) {
    Valid(w.repository) && HistoryOk(w) && HistorySucceeds(w) && CallsOk(p, w) && CacheOk(p, w)
  }

  /** A new repository, however it was filled, and an empty cache. */
  ghost predicate Start(w: System) {
    && Valid(w.repository) && w.repository.snapshot.epoch == 0 && w.history == [w.repository.snapshot]
    && w.cache == Cache(map[], None) && w.verifications == []
  }

  lemma ChangeKeeps(p: Provider, w: System, op: Operation)
    requires Inv(p, w)
    ensures Inv(p, Apply(p, w, Change(op)))
  {
    hide Mutate, Plain, Valid, Succeeds, MadeBy;
    var r := Mutate(w.repository, op);
    if r.Ok? {
      var t := Apply(p, w, Change(op));
      MutateKeeps(w.repository, op);
      forall d, e | 0 <= d <= e < |t.history| ensures Succeeds(t.history[d], t.history[e]) {
        if e == |w.history| {
          SucceedsReflexive(t.history[e]);
          if d < e { SucceedsTransitive(w.history[d], w.repository.snapshot, t.history[e]); }
        }
      }
      forall i | 0 <= i < |t.verifications| ensures CallOk(p, t, t.verifications[i]) {
        assert CallOk(p, w, w.verifications[i]);
      }
      forall key | key in t.cache.entries ensures EntryOk(p, t.history, key, t.cache.entries[key]) {
        assert EntryOk(p, w.history, key, w.cache.entries[key]);
        assert t.history[key.epoch] == w.history[key.epoch];
      }
    }
  }

  /** A step that leaves the repository alone and only drops or proves entries. */
  lemma CacheStep(p: Provider, w: System, i: nat, stage: Stage, cache: Cache)
    requires Inv(p, w) && i < |w.verifications|
    requires CallOk(p, w, w.verifications[i].(stage := stage))
    requires forall key :: key in cache.entries ==> EntryOk(p, w.history, key, cache.entries[key])
    ensures Inv(p, Move(w.(cache := cache), i, stage))
  {
    hide Valid, Succeeds, EntryOk, Plain;
    var t := Move(w.(cache := cache), i, stage);
    forall k | 0 <= k < |t.verifications| ensures CallOk(p, t, t.verifications[k]) {
      if k != i { assert CallOk(p, w, w.verifications[k]); }
    }
  }

  /** A hit is what the signature check gives now, for the same snapshot. */
  lemma HitIsSigned(p: Provider, w: System, token: Token, s: Snapshot)
    requires Inv(p, w) && InjectiveDigest(p) && s.epoch < |w.history| && s == w.history[s.epoch]
    ensures var (cache, hit) := Get(p, w.cache, token, s);
      && (forall key :: key in cache.entries ==> EntryOk(p, w.history, key, cache.entries[key]))
      && (hit.Some? ==> Signed(p, token, s) == Good(hit.value))
  {
    hide Valid, Succeeds, Signed, CallsOk;
    var (cache, hit) := Get(p, w.cache, token, s);
    if hit.Some? {
      assert EntryOk(p, w.history, KeyFor(p, token, s), hit.value);
    }
  }

  lemma SetKeeps(p: Provider, w: System, v: Verification, value: Verified, live: nat)
    requires Inv(p, w) && CallOk(p, w, v) && Plain(p, v.token, v.snapshot, v.now) == Good(value)
    ensures var cache := Set(p, w.cache, v.token, v.snapshot, value, v.now, live);
      forall key :: key in cache.entries ==> EntryOk(p, w.history, key, cache.entries[key])
  {
    hide Valid, Succeeds, Signed, CallsOk;
    assert MadeBy(p, v.snapshot, KeyFor(p, v.token, v.snapshot), value, v.token);
  }

  lemma {:induction false} ApplyKeeps(p: Provider, w: System, e: Event)
    requires Inv(p, w) && InjectiveDigest(p)
    ensures Inv(p, Apply(p, w, e))
  {
    hide Valid, Succeeds, Signed, Get, Set, EntryOk, Mutate, CacheOk, InjectiveDigest, HistorySucceeds;
    match e
    case Change(op) => ChangeKeeps(p, w, op);
    case Begin(token, now) => BeginKeeps(p, w, token, now);
    case LookUp(i) =>
      if i < |w.verifications| && w.verifications[i].stage.Captured? {
        var v := w.verifications[i];
        assert CallOk(p, w, v);
        HitIsSigned(p, w, v.token, v.snapshot);
        var (cache, hit) := Get(p, w.cache, v.token, v.snapshot);
        CacheStep(p, w, i, if hit.Some? then Answered(Timely(p, hit.value, v.now)) else Missed, cache);
      }
    case Compute(i) =>
      if i < |w.verifications| && w.verifications[i].stage.Missed? {
        var v := w.verifications[i];
        assert CallOk(p, w, v);
        var r := Plain(p, v.token, v.snapshot, v.now);
        SameCache(p, w);
        CacheStep(p, w, i, if r.Good? then Computed(r.value) else Answered(r), w.cache);
      }
    case ReadLive(i) =>
      if i < |w.verifications| && w.verifications[i].stage.Computed? {
        assert CallOk(p, w, w.verifications[i]);
        SameCache(p, w);
        CacheStep(p, w, i, Publishing(w.verifications[i].stage.value, w.repository.snapshot.epoch), w.cache);
      }
    case Publish(i) =>
      if i < |w.verifications| && w.verifications[i].stage.Publishing? {
        var v := w.verifications[i];
        assert CallOk(p, w, v);
        SetKeeps(p, w, v, v.stage.value, v.stage.live);
        CacheStep(p, w, i, Answered(Good(v.stage.value)),
          Set(p, w.cache, v.token, v.snapshot, v.stage.value, v.now, v.stage.live));
      }
    case Drop(key) => DropKeeps(p, w, key);
  }

  lemma SameCache(p: Provider, w: System)
    requires Inv(p, w)
    ensures forall key :: key in w.cache.entries ==> EntryOk(p, w.history, key, w.cache.entries[key])
  {
  }

  lemma BeginKeeps(p: Provider, w: System, token: Token, now: int)
    requires Inv(p, w)
    ensures Inv(p, Apply(p, w, Begin(token, now)))
  {
    hide Valid, Succeeds, Signed, EntryOk;
    var t := Apply(p, w, Begin(token, now));
    forall k | 0 <= k < |t.verifications| ensures CallOk(p, t, t.verifications[k]) {
      if k < |w.verifications| { assert CallOk(p, w, w.verifications[k]); }
    }
  }

  lemma DropKeeps(p: Provider, w: System, key: CacheKey)
    requires Inv(p, w)
    ensures Inv(p, Apply(p, w, Drop(key)))
  {
    hide Valid, Succeeds, Signed, EntryOk, Plain;
    var t := Apply(p, w, Drop(key));
    forall k | 0 <= k < |t.verifications| ensures CallOk(p, t, t.verifications[k]) {
      assert CallOk(p, w, w.verifications[k]);
    }
  }

  function Run(p: Provider, w: System, events: seq<Event>): System {
    if events == [] then w else Apply(p, Run(p, w, events[..|events| - 1]), events[|events| - 1])
  }

  lemma {:induction false} RunInv(p: Provider, w: System, events: seq<Event>)
    requires Inv(p, w) && InjectiveDigest(p)
    ensures Inv(p, Run(p, w, events))
  {
    hide Apply, Inv, InjectiveDigest;
    if events != [] {
      RunInv(p, w, events[..|events| - 1]);
      ApplyKeeps(p, Run(p, w, events[..|events| - 1]), events[|events| - 1]);
    }
  }

  lemma StartInv(p: Provider, w: System)
    requires Start(w)
    ensures Inv(p, w)
  {
  }

  /** The cache never holds results of more than the one epoch it last saw. */
  lemma {:induction false} OneEpochCached(p: Provider, w: System, events: seq<Event>)
    requires Start(w)
    ensures var c := Run(p, w, events).cache;
      forall key :: key in c.entries ==> c.observed == Some(key.epoch)
  {
    hide Mutate, Plain;
    if events != [] { OneEpochCached(p, w, events[..|events| - 1]); }
  }

  /** No verification gets stuck: wherever it stands, its own four steps answer it. */
  lemma FourStepsAnswer(p: Provider, w: System, i: nat)
    requires i < |w.verifications|
    ensures var t := Apply(p, Apply(p, Apply(p, Apply(p, w, LookUp(i)), Compute(i)), ReadLive(i)), Publish(i));
      |t.verifications| == |w.verifications| && t.verifications[i].stage.Answered?
  {
    hide Get, Set, Plain, Timely;
  }

  /** What one verification publishes for the live epoch, unexpired, the next look-up of
      that token and snapshot answers from, with nothing decoded again. */
  lemma PublishedIsServed(p: Provider, w: System, i: nat, j: nat)
    requires i < |w.verifications| && j < |w.verifications| && w.verifications[i].stage.Publishing?
    requires w.verifications[j].stage.Captured?
    requires w.verifications[j].token == w.verifications[i].token
    requires w.verifications[j].snapshot == w.verifications[i].snapshot
    requires w.verifications[i].stage.live == w.verifications[i].snapshot.epoch
    requires var expiry := p.expiresAt(w.verifications[i].stage.value.claims);
      expiry.Some? ==> expiry.value > w.verifications[i].now
    ensures var v := w.verifications[i].stage.value;
      var t := Apply(p, Apply(p, w, Publish(i)), LookUp(j));
      && |t.verifications| == |w.verifications|
      && t.verifications[i].stage == Answered(Good(v))
      && t.verifications[j].stage == Answered(
           match p.validate(v.claims, w.verifications[j].now)
           case Some(error) => Bad(error)
           case None => Good(v))
  {
    var u := w.verifications[i];
    StoredIsFound(p, w.cache, u.token, u.snapshot, u.stage.value, u.now, u.stage.live);
  }

  // ----- agreement and revocation -----

  /** With the cache `verify` answers what it answers without one, for the same token,
      snapshot and time, whatever happened to keys and cache meanwhile. */
  lemma AgreesWithoutCache(p: Provider, w: System, events: seq<Event>, i: nat)
    requires Start(w) && InjectiveDigest(p)
    requires i < |Run(p, w, events).verifications| && Run(p, w, events).verifications[i].stage.Answered?
    ensures var v := Run(p, w, events).verifications[i];
      v.stage.result == Plain(p, v.token, v.snapshot, v.now)
  {
    hide Run, Plain, Valid, Succeeds, CacheOk, HistorySucceeds;
    StartInv(p, w);
    RunInv(p, w, events);
    var t := Run(p, w, events);
    assert CallOk(p, t, t.verifications[i]);
  }

  /** The key the token names is in the snapshot and still accepted: active, or
      retired. */
  predicate Usable(s: Snapshot, kid: Kid) {
    && kid in s.entries && (s.entries[kid].status == ACTIVE || s.entries[kid].status == RETIRED)
    && s.entries[kid].key.Some?
  }

  /** The token is well formed, signed by `kid`'s key under the provider's algorithm,
      and its claims hold at `now`. */
  predicate Acceptable(p: Provider, token: Token, s: Snapshot, now: int, kid: Kid, claims: Claims) {
    && p.shaped(token) && p.header(token) == Good(kid)
    && Usable(s, kid)
    && s.entries[kid].key.value.algorithm == p.algorithm
    && p.decode(token, s.entries[kid].key.value.material) == Good(claims)
    && p.validate(claims, now).None?
  }

  /** Why a token is refused: the first of these that applies. */
  predicate RefusedWith(p: Provider, token: Token, s: Snapshot, now: int, error: JwtError) {
    if !p.shaped(token) then error == Malformed
    else
      match p.header(token)
      case Bad(e) => error == e
      case Good(kid) =>
        if !Usable(s, kid) then error == KeyUnavailable
        else if s.entries[kid].key.value.algorithm != p.algorithm then error == Unsupported
        else
          match p.decode(token, s.entries[kid].key.value.material)
          case Bad(e) => error == e
          case Good(claims) => p.validate(claims, now) == Some(error)
  }

  /** Each entry holds the key of its identifier, or is a tombstone. */
  ghost predicate Named(s: Snapshot) {
    forall k :: k in s.entries ==>
      && (s.entries[k].status == REVOKED <==> s.entries[k].key.None?)
      && (s.entries[k].key.Some? ==> s.entries[k].key.value.kid == k)
  }

  /** A snapshot that a run has had. */
  lemma SnapshotValid(p: Provider, w: System, events: seq<Event>, i: nat)
    requires Start(w) && InjectiveDigest(p) && i < |Run(p, w, events).verifications|
    ensures Named(Run(p, w, events).verifications[i].snapshot)
  {
    hide Plain, Apply;
    KeysNamed(p, w, events);
    StartInv(p, w);
    RunInv(p, w, events);
    var t := Run(p, w, events);
    assert CallOk(p, t, t.verifications[i]);
  }

  lemma {:induction false} KeysNamed(p: Provider, w: System, events: seq<Event>)
    requires Start(w) && InjectiveDigest(p)
    ensures forall e :: 0 <= e < |Run(p, w, events).history| ==> Named(Run(p, w, events).history[e])
  {
    hide Mutate, Plain, Get, Set, Named, InjectiveDigest;
    if events == [] {
      ValidNamed(w.repository);
    } else {
      var init, e := events[..|events| - 1], events[|events| - 1];
      KeysNamed(p, w, init);
      StartInv(p, w);
      RunInv(p, w, init);
      var t := Run(p, w, init);
      if e.Change? && Mutate(t.repository, e.operation).Ok? {
        MutateKeeps(t.repository, e.operation);
        ValidNamed(Mutate(t.repository, e.operation).value);
      }
    }
  }

  lemma ValidNamed(r: Repository)
    requires Valid(r)
    ensures Named(r.snapshot)
  {
  }

  /** Over every run: a verification accepts exactly the tokens that are well formed,
      signed by a key that was active or retired when it began, and timely, and each
      refusal has its cause. */
  lemma AcceptedIff(p: Provider, w: System, events: seq<Event>, i: nat)
    requires Start(w) && InjectiveDigest(p)
    requires i < |Run(p, w, events).verifications| && Run(p, w, events).verifications[i].stage.Answered?
    ensures var v := Run(p, w, events).verifications[i];
      && (forall kid, claims :: v.stage.result == Good(Verified(kid, claims)) <==>
            Acceptable(p, v.token, v.snapshot, v.now, kid, claims))
      && (forall error :: v.stage.result == Bad(error) <==> RefusedWith(p, v.token, v.snapshot, v.now, error))
  {
    hide Run, Start, InjectiveDigest;
    AgreesWithoutCache(p, w, events, i);
    SnapshotValid(p, w, events, i);
  }

  /** A token that is accepted stays acceptable at its time until its own key is
      revoked: rotating, retiring or adding keys takes nothing away. */
  lemma AcceptedUntilRevoked(
    p: Provider, r: Repository, op: Operation, token: Token, now: int, kid: Kid, claims: Claims)
    requires Valid(r) && Mutate(r, op).Ok? && Acceptable(p, token, r.snapshot, now, kid, claims)
    ensures Acceptable(p, token, Mutate(r, op).value.snapshot, now, kid, claims) <==> op != Revoke(Some(kid))
  {
    hide Mutate;
    OperationEffect(r, op);
  }

  /** The same over runs: of two verifications of one token at one time, the later
      one gives what the earlier accepted unless the key has been revoked between. */
  lemma AcceptedAgainIff(p: Provider, w: System, events: seq<Event>, i: nat, j: nat)
    requires Start(w) && InjectiveDigest(p)
    requires i < |Run(p, w, events).verifications| && j < |Run(p, w, events).verifications|
    requires var u, v := Run(p, w, events).verifications[i], Run(p, w, events).verifications[j];
      && u.token == v.token && u.now == v.now && u.snapshot.epoch <= v.snapshot.epoch
      && u.stage.Answered? && u.stage.result.Good? && v.stage.Answered?
    ensures var u, v := Run(p, w, events).verifications[i], Run(p, w, events).verifications[j];
      var kid := u.stage.result.value.kid;
      && kid in v.snapshot.entries
      && (v.stage.result == u.stage.result <==> v.snapshot.entries[kid] != Tombstone)
      && (v.stage.result.Bad? <==> v.snapshot.entries[kid] == Tombstone)
  {
    hide Run, Start, InjectiveDigest, Plain, Acceptable, Succeeds;
    var t := Run(p, w, events);
    var u, v := t.verifications[i], t.verifications[j];
    var kid, claims := u.stage.result.value.kid, u.stage.result.value.claims;
    assert u.stage.result == Good(Verified(kid, claims));
    AcceptedIff(p, w, events, i);
    AcceptedIff(p, w, events, j);
    SnapshotValid(p, w, events, j);
    assert Succeeds(u.snapshot, v.snapshot) by {
      StartInv(p, w);
      RunInv(p, w, events);
      assert CallOk(p, t, u) && CallOk(p, t, v);
    }
    SameKeyAccepted(p, u.token, u.snapshot, v.snapshot, u.now, kid, claims);
    if v.stage.result.Good? {
      assert v.stage.result == Good(Verified(v.stage.result.value.kid, v.stage.result.value.claims));
    }
  }

  lemma SameKeyAccepted(p: Provider, token: Token, a: Snapshot, b: Snapshot, now: int, kid: Kid, claims: Claims)
    requires Succeeds(a, b) && Named(b) && Acceptable(p, token, a, now, kid, claims)
    ensures kid in b.entries
    ensures Acceptable(p, token, b, now, kid, claims) <==> b.entries[kid] != Tombstone
    ensures forall other, others :: Acceptable(p, token, b, now, other, others) ==> other == kid && others == claims
  {
  }

  lemma {:induction false} RepositoryAdvances(p: Provider, w: System, events: seq<Event>)
    requires Inv(p, w) && InjectiveDigest(p)
    ensures Succeeds(w.repository.snapshot, Run(p, w, events).repository.snapshot)
    ensures |Run(p, w, events).verifications| >= |w.verifications|
    ensures forall k :: 0 <= k < |Run(p, w, events).verifications| ==>
      if k < |w.verifications| then
        && Run(p, w, events).verifications[k].snapshot == w.verifications[k].snapshot
        && Run(p, w, events).verifications[k].token == w.verifications[k].token
      else Succeeds(w.repository.snapshot, Run(p, w, events).verifications[k].snapshot)
  {
    hide Get, Set, Plain, Mutate, Signed, Succeeds, CallsOk, CacheOk, Valid, HistorySucceeds;
    if events == [] {
      SucceedsReflexive(w.repository.snapshot);
    } else {
      var init, e := events[..|events| - 1], events[|events| - 1];
      RepositoryAdvances(p, w, init);
      var t := Run(p, w, init);
      RunInv(p, w, init);
      if e.Change? && Mutate(t.repository, e.operation).Ok? {
        MutateKeeps(t.repository, e.operation);
        SucceedsTransitive(w.repository.snapshot, t.repository.snapshot,
          Mutate(t.repository, e.operation).value.snapshot);
      }
    }
  }

  /** After a successful revoke, no verification that begins later accepts a token of
      that key, cached or not. */
  lemma RevokedNeverAccepted(p: Provider, start: System, before: seq<Event>, kid: Kid, events: seq<Event>, i: nat)
    requires Start(start) && InjectiveDigest(p)
    requires Mutate(Run(p, start, before).repository, Revoke(Some(kid))).Ok?
    requires var revoked := Apply(p, Run(p, start, before), Change(Revoke(Some(kid))));
      |revoked.verifications| <= i < |Run(p, revoked, events).verifications|
    ensures var revoked := Apply(p, Run(p, start, before), Change(Revoke(Some(kid))));
      var v := Run(p, revoked, events).verifications[i];
      v.stage.Answered? && p.header(v.token) == Good(kid) ==> v.stage.result.Bad?
  {
    hide Run, CacheOk, Valid, HistorySucceeds, Inv, InjectiveDigest, Start;
    StartInv(p, start);
    RunInv(p, start, before);
    var revoked := Apply(p, Run(p, start, before), Change(Revoke(Some(kid))));
    ApplyKeeps(p, Run(p, start, before), Change(Revoke(Some(kid))));
    assert revoked.repository.snapshot.entries[kid] == Tombstone;
    RepositoryAdvances(p, revoked, events);
    RunInv(p, revoked, events);
    var t := Run(p, revoked, events);
    assert CallOk(p, t, t.verifications[i]) by { CallsInv(p, t); }
  }

  lemma CallsInv(p: Provider, w: System)
    requires Inv(p, w)
    ensures CallsOk(p, w)
  {
  }
}
