/** Every interleaving of tasks around the asynchronous cache.  `callers` maps each
    caller that is between joining a flight and releasing it to that flight. */
module AsyncRuns {
  import opened Wrappers
  import opened CacheCore
  import opened CacheInvariants
  import opened Flights
  import opened AsyncCache
  import SyncCache

  datatype World = World(cache: Cache, callers: map<nat, nat>, next: nat)

  datatype Step =
    | GetStep(key: Key, tick: int)
    | SetStep(key: Key, value: Val, ttl: int, tick: int)
    | InvalidateStep(key: Key, tick: int)
    | ClearStep(tick: int)
    | PurgeStep(tick: int)
    | LoadStep(key: Key, ttl: int, tick: int, taskError: Option<Failure>)
    | ReleaseStep(caller: nat)
    | CompleteStep(flight: nat, loaded: Outcome, clock: ClockRead)

  function CallersOf(w: World, f: nat): set<nat> {
    set c | c in w.callers && w.callers[c] == f
  }

  function Joined(w: World, d: Cache, reply: LoadReply): World {
    if reply.Waits? then World(d, w.callers[w.next := reply.flight], w.next + 1) else w.(cache := d)
  }

  /** Each waiting caller releases once and each owned flight completes once; any
      other release or completion is no step. */
  function Apply(w: World, step: Step): World
    requires Inv(w.cache) && CallersInRange(w)
  {
    var c := w.cache;
    match step
    case GetStep(key, tick) => w.(cache := Read(c, key, tick).0)
    case SetStep(key, value, ttl, tick) => w.(cache := Write(c, key, value, ttl, tick))
    case InvalidateStep(key, tick) => w.(cache := Remove(c, key, tick).0)
    case ClearStep(tick) => w.(cache := Reset(c, tick))
    case PurgeStep(tick) => w.(cache := Purged(c, tick))
    case LoadStep(key, ttl, tick, taskError) =>
      var (d, reply) := BeginLoad(c, key, ttl, tick, taskError);
      Joined(w, d, reply)
    case ReleaseStep(caller) =>
      if caller in w.callers then
        World(Release(c, w.callers[caller]).0, w.callers - {caller}, w.next)
      else w
    case CompleteStep(f, loaded, clock) => if f in c.owned then w.(cache := Complete(c, f, loaded, clock)) else w
  }

  predicate CallersInRange(w: World) {
    forall c | c in w.callers :: c < w.next && w.callers[c] < |w.cache.flights|
  }

  /** A started flight counts its waiting callers; an abandoned one has none; an
      unfinished one has a caller unless it was abandoned. */
  ghost predicate WaitersExact(w: World) {
    && CallersInRange(w)
    && (forall c | c in w.callers :: w.cache.flights[w.callers[c]].task)
    && (forall f | 0 <= f < |w.cache.flights| && w.cache.flights[f].task ::
          w.cache.flights[f].waiters == |CallersOf(w, f)|)
    && (forall f | 0 <= f < |w.cache.flights| && w.cache.flights[f].abandoned :: CallersOf(w, f) == {})
    && (forall f | f in w.cache.owned && f < |w.cache.flights| ::
          w.cache.flights[f].task && (!w.cache.flights[f].abandoned ==> CallersOf(w, f) != {}))
  }

  ghost predicate WorldInv(w: World) {
    Inv(w.cache) && WaitersExact(w)
  }

  /** What a step makes unfit to publish: its own key, or the key of a flight it
      abandons. */
  function TouchedBy(w: World, step: Step): Touched
    requires CallersInRange(w)
  {
    match step
    case SetStep(k, _, _, _) => OneKey(k)
    case InvalidateStep(k, _) => OneKey(k)
    case ClearStep(_) => Everything
    case ReleaseStep(caller) =>
      if caller in w.callers && Release(w.cache, w.callers[caller]).1
      then OneKey(w.cache.flights[w.callers[caller]].key) else Nothing
    case _ => Nothing
  }

  lemma ApplyKeeps(w: World, step: Step)
    requires Inv(w.cache) && CallersInRange(w)
    ensures var d := Apply(w, step).cache;
      Inv(d) && CurrentKept(w.cache, d, TouchedBy(w, step)) && SameLimits(w.cache, d)
  {
    hide Inv, Read, Write, Remove, Reset, Purged, AsyncCache.BeginLoad, Complete, Release, CurrentKept, SameLimits;
    var c := w.cache;
    match step
    case GetStep(key, tick) => ReadKeeps(c, key, tick);
    case SetStep(key, value, ttl, tick) => WriteKeeps(c, key, value, ttl, tick);
    case InvalidateStep(key, tick) => RemoveKeeps(c, key, tick);
    case ClearStep(tick) => ResetKeeps(c, tick);
    case PurgeStep(tick) => PurgedKeeps(c, tick);
    case LoadStep(key, ttl, tick, taskError) => BeginLoadKeeps(c, key, ttl, tick, taskError);
    case ReleaseStep(caller) =>
      if caller in w.callers { ReleaseKeeps(c, w.callers[caller]); } else { CurrentSame(c); }
    case CompleteStep(f, loaded, clock) =>
      if f in c.owned { CompleteKeeps(c, f, loaded, clock); } else { CurrentSame(c); }
  }

  lemma CurrentSame(c: Cache)
    ensures CurrentKept(c, c, Nothing) && SameLimits(c, c)
  {
  }

  // ----- waiters -----

  /** A section that changes no flight's waiters, task or abandonment. */
  ghost predicate SameWaiting(c: Cache, d: Cache) {
    && d.owned <= c.owned && |d.flights| == |c.flights|
    && forall f | 0 <= f < |c.flights| ::
         && d.flights[f].waiters == c.flights[f].waiters
         && d.flights[f].task == c.flights[f].task
         && d.flights[f].abandoned == c.flights[f].abandoned
         && d.flights[f].key == c.flights[f].key
         && (c.flights[f].outcome.Some? ==> d.flights[f].outcome == c.flights[f].outcome)
  }

  lemma SameWaitingExact(w: World, d: Cache)
    requires WaitersExact(w) && SameWaiting(w.cache, d)
    ensures WaitersExact(w.(cache := d))
  {
    var v := w.(cache := d);
    assert forall f :: CallersOf(v, f) == CallersOf(w, f);
  }

  lemma PlainSectionsSameWaiting(w: World, step: Step)
    requires Inv(w.cache) && CallersInRange(w) && !step.LoadStep? && !step.ReleaseStep?
    ensures SameWaiting(w.cache, Apply(w, step).cache)
  {
    hide Purge, Store, Valid, VersionsBounded, ActiveEpochs, Get, Invalidate, DropUnused, SettledCore,
      FlightsConsistent;
    assert FlightsConsistent(w.cache);
    match step
    case GetStep(key, tick) =>
    case SetStep(key, value, ttl, tick) => SupersedeFacts(w.cache, key);
    case InvalidateStep(key, tick) =>
    case ClearStep(tick) =>
    case PurgeStep(tick) =>
    case CompleteStep(f, loaded, clock) => if f in w.cache.owned { ActiveFacts(w.cache); OwnedUnfinished(w.cache, f); }
  }

  lemma OwnedUnfinished(c: Cache, f: nat)
    requires FlightsConsistent(c) && f in c.owned
    ensures f < |c.flights| && c.flights[f].outcome.None?
  {
  }

  lemma JoinExact(w: World, d: Cache, f: nat)
    requires WaitersExact(w) && f < |d.flights| && d.flights[f].task && !d.flights[f].abandoned
    requires d.owned <= w.cache.owned + {f}
    requires |w.cache.flights| <= |d.flights| && (f == |w.cache.flights| || |d.flights| == |w.cache.flights|) &&
        |d.flights| <= |w.cache.flights| + 1
    requires forall g | 0 <= g < |w.cache.flights| && g != f :: d.flights[g] == w.cache.flights[g]
    requires d.flights[f].waiters == if f < |w.cache.flights| then w.cache.flights[f].waiters + 1 else 1
    requires f < |w.cache.flights| ==> w.cache.flights[f].task
    ensures WaitersExact(Joined(w, d, Waits(f)))
  {
    var v := Joined(w, d, Waits(f));
    assert CallersOf(v, f) == CallersOf(w, f) + {w.next};
    assert f == |w.cache.flights| ==> CallersOf(w, f) == {};
    assert forall g | g != f :: CallersOf(v, g) == CallersOf(w, g);
  }

  /** The four ways a load section can change the flight tables. */
  lemma LoadTables(c: Cache, key: Key, ttl: int, tick: int, taskError: Option<Failure>)
    requires FlightsConsistent(c)
    ensures var (d, reply) := BeginLoad(c, key, ttl, tick, taskError);
      var id := |c.flights|;
      match reply
      case Waits(f) =>
        && f < |d.flights| && ((f < id ==> c.flights[f].task) ==> d.flights[f].task)
        && !d.flights[f].abandoned && d.owned <= c.owned + {f}
        && (forall g | 0 <= g < id && g != f :: d.flights[g] == c.flights[g])
        && (f < id ==> key in c.active && f == c.active[key] && |d.flights| == id
                       && d.flights[f].waiters == c.flights[f].waiters + 1)
        && (f >= id ==> f == id && |d.flights| == id + 1 && d.flights[f].waiters == 1)
      case TaskFailed =>
        && |d.flights| == id + 1 && d.owned <= c.owned && id !in d.owned
        && (forall g | 0 <= g < id :: d.flights[g] == c.flights[g])
        && !d.flights[id].task && !d.flights[id].abandoned
      case _ => SameWaiting(c, d)
  {
    assert |c.flights| !in c.owned && (forall f | f in c.owned :: f < |c.flights|);
    if key in c.active { ActiveUnabandoned(c, key); }
    hide Valid, VersionsBounded, ActiveEpochs, DropUnused, Read, FlightsConsistent;
    ReadTables(c, key, tick);
  }

  lemma LoadExact(w: World, key: Key, ttl: int, tick: int, taskError: Option<Failure>)
    requires WorldInv(w)
    ensures WaitersExact(Apply(w, LoadStep(key, ttl, tick, taskError)))
  {
    hide Inv, BeginLoad, WaitersExact, CallersOf;
    InvParts(w.cache);
    InRange(w);
    LoadTables(w.cache, key, ttl, tick, taskError);
    var (d, reply) := BeginLoad(w.cache, key, ttl, tick, taskError);
    match reply
    case Waits(f) =>
      if f < |w.cache.flights| { ActiveUnabandoned(w.cache, key); OwnedHasTask(w, f); }
      JoinExact(w, d, f);
    case TaskFailed => DeadFlightExact(w, d);
    case _ => SameWaitingExact(w, d);
  }

  lemma ReadTables(c: Cache, key: Key, tick: int)
    ensures var g := Read(c, key, tick).0; SameFlights(c, g) && SameWaiting(c, g)
  {
    hide Get;
  }

  lemma ActiveUnabandoned(c: Cache, key: Key)
    requires FlightsConsistent(c) && key in c.active
    ensures c.active[key] < |c.flights| && c.active[key] in c.owned && !c.flights[c.active[key]].abandoned
    ensures c.flights[c.active[key]].outcome.None?
  {
  }

  lemma OwnedHasTask(w: World, f: nat)
    requires WaitersExact(w) && f in w.cache.owned && f < |w.cache.flights|
    ensures w.cache.flights[f].task
  {
  }

  lemma DeadFlightExact(w: World, d: Cache)
    requires WaitersExact(w) && |d.flights| == |w.cache.flights| + 1 && d.owned <= w.cache.owned
    requires forall g | 0 <= g < |w.cache.flights| :: d.flights[g] == w.cache.flights[g]
    requires !d.flights[|w.cache.flights|].task && !d.flights[|w.cache.flights|].abandoned
    requires |w.cache.flights| !in d.owned
    ensures WaitersExact(w.(cache := d))
  {
    var v := w.(cache := d);
    assert forall f :: CallersOf(v, f) == CallersOf(w, f);
  }

  lemma ReleaseExact(w: World, caller: nat)
    requires WorldInv(w) && caller in w.callers
    ensures WaitersExact(Apply(w, ReleaseStep(caller)))
    ensures Release(w.cache, w.callers[caller]).1 <==>
      CallersOf(w, w.callers[caller]) == {caller} && w.callers[caller] in w.cache.owned
  {
    hide Inv;
    var f := w.callers[caller];
    var v := Apply(w, ReleaseStep(caller));
    assert CallersOf(v, f) == CallersOf(w, f) - {caller};
    assert forall g | g != f :: CallersOf(v, g) == CallersOf(w, g);
    assert |CallersOf(v, f)| == |CallersOf(w, f)| - 1;
    if CallersOf(v, f) == {} { assert CallersOf(w, f) == {caller}; }
  }

  lemma ApplyWorld(w: World, step: Step)
    requires WorldInv(w)
    ensures WorldInv(Apply(w, step))
  {
    hide Inv, WaitersExact, Apply;
    InRange(w);
    ApplyKeeps(w, step);
    if step.LoadStep? {
      LoadExact(w, step.key, step.ttl, step.tick, step.taskError);
    } else if step.ReleaseStep? {
      if step.caller in w.callers { ReleaseExact(w, step.caller); } else { NoRelease(w, step.caller); }
    } else {
      PlainSectionsSameWaiting(w, step);
      SameWaitingExact(w, Apply(w, step).cache);
      SameCallers(w, step);
    }
  }

  lemma NoRelease(w: World, caller: nat)
    requires WorldInv(w) && caller !in w.callers
    ensures Apply(w, ReleaseStep(caller)) == w
  {
  }

  lemma SameCallers(w: World, step: Step)
    requires Inv(w.cache) && CallersInRange(w) && !step.LoadStep? && !step.ReleaseStep?
    ensures Apply(w, step) == w.(cache := Apply(w, step).cache)
  {
    hide Inv, Read, Write, Remove, Reset, Purged, Complete;
  }

  lemma InRange(w: World)
    requires WaitersExact(w)
    ensures CallersInRange(w)
  {
  }

  // ----- runs -----

  ghost function Run(maxSize: nat, maxInflight: nat, steps: seq<Step>): (w: World)
    requires maxSize >= 1
    ensures WorldInv(w) && w.cache.maxInflight == maxInflight && w.cache.core.maxSize == maxSize
  {
    if steps == [] then World(New(maxSize, maxInflight), map[], 0)
    else
      var prior := Run(maxSize, maxInflight, steps[..|steps| - 1]);
      ApplyWorld(prior, steps[|steps| - 1]);
      ApplyKeeps(prior, steps[|steps| - 1]);
      Apply(prior, steps[|steps| - 1])
  }

  /** In every run: a flight's `waiters` is the number of callers between joining
      and releasing it, and an unfinished flight that nobody waits on is one whose
      task the cache has cancelled. */
  lemma WaitersCountCallers(maxSize: nat, maxInflight: nat, steps: seq<Step>, f: nat)
    requires maxSize >= 1
    ensures var w := Run(maxSize, maxInflight, steps);
      f < |w.cache.flights| ==>
        && (w.cache.flights[f].task ==> w.cache.flights[f].waiters == |CallersOf(w, f)|)
        && (f in w.cache.owned ==> (CallersOf(w, f) == {} <==> w.cache.flights[f].abandoned))
  {
    hide Inv, Run;
  }

  /** The loader task is cancelled only by its flight's last waiting caller, and
      then nobody waits on the flight and nobody can join it. */
  lemma CancelledOnlyUnwaited(maxSize: nat, maxInflight: nat, steps: seq<Step>, caller: nat)
    requires maxSize >= 1 && caller in Run(maxSize, maxInflight, steps).callers
    ensures var w := Run(maxSize, maxInflight, steps);
      var f := w.callers[caller];
      && f < |w.cache.flights|
      && (Release(w.cache, f).1 <==> CallersOf(w, f) == {caller} && f in w.cache.owned)
      && (Release(w.cache, f).1 ==> Hopeless(Apply(w, ReleaseStep(caller)), f))
  {
    hide Inv, Run;
    var w := Run(maxSize, maxInflight, steps);
    ReleaseExact(w, caller);
    InRange(w);
    ApplyWorld(w, ReleaseStep(caller));
    var v := Apply(w, ReleaseStep(caller));
    if Release(w.cache, w.callers[caller]).1 {
      AbandonedHopeless(v, w.callers[caller]);
    }
  }

  /** Abandoned, with no caller, and not on the table that joiners look in. */
  ghost predicate Hopeless(w: World, f: nat) {
    && f < |w.cache.flights| && w.cache.flights[f].abandoned
    && CallersOf(w, f) == {}
    && forall k | k in w.cache.active :: w.cache.active[k] != f
  }

  lemma AbandonedHopeless(w: World, f: nat)
    requires WorldInv(w) && f < |w.cache.flights| && w.cache.flights[f].abandoned
    ensures Hopeless(w, f)
  {
    hide Valid, VersionsBounded, ActiveEpochs;
    forall k | k in w.cache.active ensures w.cache.active[k] != f {
      ActiveUnabandoned(w.cache, k);
    }
  }

  /** No section removes a flight, changes its key, un-abandons it or revokes its
      outcome, and only an admission adds an owned one. */
  lemma FlightsGrow(w: World, step: Step)
    requires WorldInv(w)
    ensures var c, d := w.cache, Apply(w, step).cache;
      && |c.flights| <= |d.flights| <= |c.flights| + 1
      && (forall f | 0 <= f < |c.flights| ::
            && d.flights[f].key == c.flights[f].key
            && (c.flights[f].abandoned ==> d.flights[f].abandoned)
            && (c.flights[f].outcome.Some? ==> d.flights[f].outcome == c.flights[f].outcome))
      && d.owned <= c.owned + {|c.flights|}
      && (|c.flights| in d.owned ==> Current(d, |c.flights|))
      && |c.flights| !in c.owned
  {
    assert CallersInRange(w);
    hide Ordered, Valid, VersionsBounded, ActiveEpochs, Get, Purge, Read, Write, Remove, Reset, EndFlight, SettledCore,
      Admitted, Joined, WaitersExact, Release, BeginLoad, Complete;
    var c := w.cache;
    assert |c.flights| !in c.owned;
    match step
    case GetStep(key, tick) => ReadIsPlain(c, key, tick);
    case SetStep(key, value, ttl, tick) => SyncCache.OrderedCore(c); WriteGrew(c, key, value, ttl, tick);
    case InvalidateStep(key, tick) => RemoveGrew(c, key, tick);
    case ClearStep(tick) => ResetGrew(c, tick);
    case PurgeStep(tick) =>
    case LoadStep(key, ttl, tick, taskError) => JoinedCache(w, step); LoadGrew(c, key, ttl, tick, taskError);
    case ReleaseStep(caller) => if caller in w.callers { ReleaseGrew(c, w.callers[caller]); }
    case CompleteStep(f, loaded, clock) => if f in c.owned { CompleteGrew(c, f, loaded, clock); }
  }

  lemma ReleaseGrew(c: Cache, f: nat)
    requires f < |c.flights|
    ensures var d := Release(c, f).0;
      && |d.flights| == |c.flights| && d.owned == c.owned
      && forall g | 0 <= g < |c.flights| ::
           && d.flights[g].key == c.flights[g].key && d.flights[g].outcome == c.flights[g].outcome
           && (c.flights[g].abandoned ==> d.flights[g].abandoned)
  {
    hide BumpVersion;
  }

  lemma ReadIsPlain(c: Cache, key: Key, tick: int)
    ensures Read(c, key, tick).0.flights == c.flights && Read(c, key, tick).0.owned == c.owned
  {
    hide Get;
  }

  lemma JoinedCache(w: World, step: Step)
    requires WorldInv(w) && step.LoadStep?
    ensures Apply(w, step).cache == BeginLoad(w.cache, step.key, step.ttl, step.tick, step.taskError).0
  {
    hide BeginLoad;
  }

  /** Joining changes only the waiters of the flight joined. */
  ghost predicate Widened(c: Cache, d: Cache) {
    && |c.flights| <= |d.flights| <= |c.flights| + 1
    && (forall f | 0 <= f < |c.flights| :: FlightKept(c.flights[f], d.flights[f]))
    && d.owned <= c.owned + {|c.flights|}
    && (|c.flights| in d.owned ==> Current(d, |c.flights|))
  }

  lemma LoadGrew(c: Cache, key: Key, ttl: int, tick: int, taskError: Option<Failure>)
    requires Inv(c)
    ensures Widened(c, BeginLoad(c, key, ttl, tick, taskError).0)
  {
    hide Valid, VersionsBounded, ActiveEpochs, Read, EndFlight, Admitted;
    var g := Read(c, key, tick).0;
    ReadIsPlain(c, key, tick);
    assert |c.flights| !in c.owned;
    AdmittedGrew(c, g.(core := SyncCache.CountLoad(g.core)), key, ttl, 1, true);
    if taskError.Some? {
      var a := Admitted(g, NewFlight(g.core, key, ttl, 1, false));
      AdmittedThenEnded(g, key, ttl, taskError.value);
    }
  }

  lemma AdmittedThenEnded(g: Cache, key: Key, ttl: int, error: Failure)
    requires |g.flights| !in g.owned
    ensures var a := Admitted(g, NewFlight(g.core, key, ttl, 1, false));
      var d := EndFlight(a, |g.flights|, a.core, Raised(error));
      && |d.flights| == |g.flights| + 1 && d.owned == g.owned
      && forall f | 0 <= f < |g.flights| :: d.flights[f] == g.flights[f]
  {
    hide DropUnused;
  }

  lemma CompleteGrew(c: Cache, f: nat, loaded: Outcome, clock: ClockRead)
    requires Inv(c) && f in c.owned
    ensures f < |c.flights| && Grew(c, Complete(c, f, loaded, clock))
  {
    hide Valid, VersionsBounded, ActiveEpochs, Grew, EndFlight, SettledCore;
    SyncCache.OrderedCore(c);
    var publish := loaded.Returned? && CanPublish(c, f);
    var outcome := if publish && clock.ClockRaised? then Raised(clock.error) else loaded;
    EndFlightGrew(c, f, SettledCore(c, f, loaded, clock, publish), outcome);
  }

  /** Once a flight is hopeless it stays so: in no later state does anyone wait on
      it or find it to join. */
  lemma {:induction false} HopelessForever(maxSize: nat, maxInflight: nat, steps: seq<Step>, i: nat, f: nat)
    requires maxSize >= 1 && i <= |steps| && Hopeless(Run(maxSize, maxInflight, steps[..i]), f)
    ensures Hopeless(Run(maxSize, maxInflight, steps), f)
  {
    hide Apply, Inv, WorldInv;
    if i == |steps| {
      assert steps[..i] == steps;
    } else {
      var init := steps[..|steps| - 1];
      assert init[..i] == steps[..i];
      HopelessForever(maxSize, maxInflight, init, i, f);
      FlightsGrow(Run(maxSize, maxInflight, init), steps[|steps| - 1]);
      AbandonedHopeless(Run(maxSize, maxInflight, steps), f);
    }
  }

  // ----- what `get_or_load` answers -----

  /** The keys whose flights a set, an invalidate or a clear supersedes. */
  function MutatedBy(step: Step): Touched {
    match step
    case SetStep(k, _, _, _) => OneKey(k)
    case InvalidateStep(k, _) => OneKey(k)
    case ClearStep(_) => Everything
    case _ => Nothing
  }

  ghost predicate MutatedSince(maxSize: nat, maxInflight: nat, steps: seq<Step>, f: nat)
    requires maxSize >= 1
  {
    steps != [] &&
    var init, last := steps[..|steps| - 1], steps[|steps| - 1];
    var prior := Run(maxSize, maxInflight, init);
    || MutatedSince(maxSize, maxInflight, init, f)
    || (f < |prior.cache.flights| && MutatedBy(last).Has(prior.cache.flights[f].key))
  }

  lemma {:induction false} NotMutatedBeforeAdmission(maxSize: nat, maxInflight: nat, steps: seq<Step>, f: nat)
    requires maxSize >= 1 && f >= |Run(maxSize, maxInflight, steps).cache.flights|
    ensures !MutatedSince(maxSize, maxInflight, steps, f)
  {
    hide Apply, Inv, WorldInv;
    if steps != [] {
      FlightsGrow(Run(maxSize, maxInflight, steps[..|steps| - 1]), steps[|steps| - 1]);
      NotMutatedBeforeAdmission(maxSize, maxInflight, steps[..|steps| - 1], f);
    }
  }

  /** A section takes a flight that goes on being owned off the active table exactly by
      mutating its key or abandoning it, and puts none back. */
  lemma ActiveStep(w: World, step: Step, f: nat)
    requires WorldInv(w) && f in w.cache.owned && f in Apply(w, step).cache.owned && f < |w.cache.flights|
    ensures f < |Apply(w, step).cache.flights|
    ensures Active(Apply(w, step).cache, f) <==>
      && Active(w.cache, f) && !MutatedBy(step).Has(w.cache.flights[f].key)
      && !Apply(w, step).cache.flights[f].abandoned
  {
    hide Inv, BeginLoad, WaitersExact, Active, Read, Write, Remove, Reset, Purged, Release, Complete;
    FlightsGrow(w, step);
    InRange(w);
    InvParts(w.cache);
    match step
    case LoadStep(key, ttl, tick, taskError) =>
      JoinedCache(w, step);
      ActiveThroughLoad(w.cache, step, f);
    case ReleaseStep(caller) => if caller in w.callers { ActiveThroughRelease(w.cache, w.callers[caller], f); }
    case CompleteStep(g, loaded, clock) =>
      if g in w.cache.owned { ActiveThroughComplete(w.cache, g, loaded, clock, f); } else { Unabandoned(w.cache, f); }
    case _ => ActiveThroughPlain(w, step, f);
  }

  lemma Unabandoned(c: Cache, f: nat)
    requires FlightsConsistent(c) && f in c.owned
    ensures f < |c.flights| && (Active(c, f) ==> !c.flights[f].abandoned)
  {
  }

  lemma ActiveThroughLoad(c: Cache, step: Step, f: nat)
    requires FlightsConsistent(c) && f in c.owned && f < |c.flights| && step.LoadStep?
    ensures var d := BeginLoad(c, step.key, step.ttl, step.tick, step.taskError).0;
      f < |d.flights| && (Active(d, f) <==> Active(c, f) && !d.flights[f].abandoned)
  {
    hide Read, DropUnused, FlightsConsistent;
    Unabandoned(c, f);
    ReadTables(c, step.key, step.tick);
    assert |c.flights| !in c.owned by { FreshUnowned(c); }
    if step.key in c.active { ActiveUnabandoned(c, step.key); }
  }

  lemma FreshUnowned(c: Cache)
    requires FlightsConsistent(c)
    ensures |c.flights| !in c.owned
  {
  }

  lemma ActiveThroughRelease(c: Cache, g: nat, f: nat)
    requires FlightsConsistent(c) && f in c.owned && f < |c.flights| && g < |c.flights|
    ensures var d := Release(c, g).0;
      f < |d.flights| && (Active(d, f) <==> Active(c, f) && !d.flights[f].abandoned)
  {
    hide BumpVersion, FlightsConsistent;
    Unabandoned(c, f);
  }

  lemma ActiveThroughComplete(c: Cache, g: nat, loaded: Outcome, clock: ClockRead, f: nat)
    requires Inv(c) && f in c.owned && f < |c.flights| && g in c.owned && g < |c.flights|
    ensures var d := Complete(c, g, loaded, clock);
      f < |d.flights| && (f in d.owned ==> (Active(d, f) <==> Active(c, f) && !d.flights[f].abandoned))
  {
    hide Valid, VersionsBounded, ActiveEpochs, SettledCore, DropUnused, FlightsConsistent, CanPublish;
    SyncCache.OrderedCore(c);
    assert FlightsConsistent(c);
    Unabandoned(c, f);
  }

  lemma ActiveThroughPlain(w: World, step: Step, f: nat)
    requires WorldInv(w) && f in w.cache.owned && f < |w.cache.flights|
    requires CallersInRange(w) && !step.LoadStep? && !step.ReleaseStep? && !step.CompleteStep?
    ensures var d := Apply(w, step).cache;
      && f < |d.flights|
      && (Active(d, f) <==>
            Active(w.cache, f) && !MutatedBy(step).Has(w.cache.flights[f].key) && !d.flights[f].abandoned)
  {
    hide Purge, Store, Valid, VersionsBounded, ActiveEpochs, Get, Invalidate, WaitersExact;
    var c := w.cache;
    match step
    case GetStep(key, tick) =>
    case SetStep(key, value, ttl, tick) =>
    case InvalidateStep(key, tick) =>
    case ClearStep(tick) =>
    case PurgeStep(tick) =>
  }

  lemma {:induction false} ActiveIffUnmutated(maxSize: nat, maxInflight: nat, steps: seq<Step>, f: nat)
    requires maxSize >= 1 && f in Run(maxSize, maxInflight, steps).cache.owned
    ensures var c := Run(maxSize, maxInflight, steps).cache;
      && f < |c.flights|
      && (Active(c, f) <==> !MutatedSince(maxSize, maxInflight, steps, f) && !c.flights[f].abandoned)
  {
    hide Apply, Valid, VersionsBounded, WaitersExact, MutatedBy;
    var init, last := steps[..|steps| - 1], steps[|steps| - 1];
    var prior := Run(maxSize, maxInflight, init);
    FlightsGrow(prior, last);
    if f in prior.cache.owned {
      ActiveIffUnmutated(maxSize, maxInflight, init, f);
      ActiveStep(prior, last, f);
    } else {
      NotMutatedBeforeAdmission(maxSize, maxInflight, init, f);
    }
  }

  /** An unfinished load of `key` that still has a waiting caller and whose key nothing
      has mutated since it was admitted. */
  ghost predicate Loading(maxSize: nat, maxInflight: nat, steps: seq<Step>, f: nat, key: Key)
    requires maxSize >= 1
  {
    var w := Run(maxSize, maxInflight, steps);
    && f < |w.cache.flights| && w.cache.flights[f].outcome.None? && w.cache.flights[f].key == key
    && CallersOf(w, f) != {} && !MutatedSince(maxSize, maxInflight, steps, f)
  }

  lemma ActiveIffLoading(maxSize: nat, maxInflight: nat, steps: seq<Step>, f: nat, key: Key)
    requires maxSize >= 1
    ensures var c := Run(maxSize, maxInflight, steps).cache;
      Loading(maxSize, maxInflight, steps, f, key) <==> key in c.active && c.active[key] == f
  {
    hide Valid, VersionsBounded, ActiveEpochs, Run, MutatedSince, CallersOf;
    var w := Run(maxSize, maxInflight, steps);
    ActiveFacts(w.cache);
    if f in w.cache.owned {
      ActiveIffUnmutated(maxSize, maxInflight, steps, f);
      WaitersCountCallers(maxSize, maxInflight, steps, f);
    }
  }

  /** In every interleaving: a caller gets the value if its key's entry survives the
      purge; else it waits on the load of its key that is under way; else it is turned
      away if `max_inflight` loads are owned; else a load of its own is started, unless
      its task cannot be created.  Each answer is given in exactly that case. */
  lemma AnswersIff(
    maxSize: nat, maxInflight: nat, steps: seq<Step>, key: Key, ttl: int, tick: int, taskError: Option<Failure>)
    requires maxSize >= 1
    ensures var c := Run(maxSize, maxInflight, steps).cache;
      var (d, reply) := BeginLoad(c, key, ttl, tick, taskError);
      var now := if tick > c.core.lastTick then tick else c.core.lastTick;
      var kept := SyncCache.Survives(c.core, key, now);
      var loading := exists f :: Loading(maxSize, maxInflight, steps, f, key);
      var room := !kept && !loading && |c.owned| < maxInflight;
      && (forall v :: reply == Hit(v) <==> kept && c.core.entries[key].value == v)
      && (forall f :: reply == Waits(f) <==>
            || (!kept && Loading(maxSize, maxInflight, steps, f, key))
            || (room && taskError.None? && f == |c.flights|))
      && (reply == Rejected <==> !kept && !loading && |c.owned| == maxInflight)
      && (reply == TaskFailed <==> room && taskError.Some?)
      && (reply == Waits(|c.flights|) ==>
            SyncCache.Admits(c, d, key, ttl) && d.flights[|c.flights|].waiters == 1 && d.flights[|c.flights|].task)
  {
    hide Read, Inv, Run, Loading, SyncCache.Survives, EndFlight;
    var c := Run(maxSize, maxInflight, steps).cache;
    RunInvOf(maxSize, maxInflight, steps);
    SyncCache.ReadIff(c, key, tick);
    InvBounded(c);
    forall f ensures Loading(maxSize, maxInflight, steps, f, key) <==> key in c.active && c.active[key] == f {
      ActiveIffLoading(maxSize, maxInflight, steps, f, key);
    }
    if key in c.active {
      assert Loading(maxSize, maxInflight, steps, c.active[key], key);
      ActiveUnabandoned(c, key) by { InvParts(c); }
    }
  }

  lemma RunInvOf(maxSize: nat, maxInflight: nat, steps: seq<Step>)
    requires maxSize >= 1
    ensures Inv(Run(maxSize, maxInflight, steps).cache)
  {
  }

  // ----- publication -----

  /** Since the flight was admitted, a set, an invalidate or a clear touched its
      key, or a flight of its key (itself or an older one) was abandoned. */
  ghost predicate DisturbedSince(maxSize: nat, maxInflight: nat, steps: seq<Step>, f: nat)
    requires maxSize >= 1
  {
    steps != [] &&
    var init, last := steps[..|steps| - 1], steps[|steps| - 1];
    var prior := Run(maxSize, maxInflight, init);
    || DisturbedSince(maxSize, maxInflight, init, f)
    || (f < |prior.cache.flights| && TouchedBy(prior, last).Has(prior.cache.flights[f].key))
  }

  lemma {:induction false} NotDisturbedBeforeAdmission(maxSize: nat, maxInflight: nat, steps: seq<Step>, f: nat)
    requires maxSize >= 1 && f >= |Run(maxSize, maxInflight, steps).cache.flights|
    ensures !DisturbedSince(maxSize, maxInflight, steps, f)
  {
    hide Apply, Inv, WorldInv;
    if steps != [] {
      FlightsGrow(Run(maxSize, maxInflight, steps[..|steps| - 1]), steps[|steps| - 1]);
      NotDisturbedBeforeAdmission(maxSize, maxInflight, steps[..|steps| - 1], f);
    }
  }

  lemma {:induction false} CurrentIffUndisturbed(maxSize: nat, maxInflight: nat, steps: seq<Step>, f: nat)
    requires maxSize >= 1 && f in Run(maxSize, maxInflight, steps).cache.owned
    ensures var c := Run(maxSize, maxInflight, steps).cache;
      f < |c.flights| && (Current(c, f) <==> !DisturbedSince(maxSize, maxInflight, steps, f))
  {
    hide Apply, Valid, VersionsBounded, WaitersExact, TouchedBy;
    var init, last := steps[..|steps| - 1], steps[|steps| - 1];
    var prior := Run(maxSize, maxInflight, init);
    InRange(prior);
    ApplyKeeps(prior, last);
    FlightsGrow(prior, last);
    if f in prior.cache.owned {
      CurrentIffUndisturbed(maxSize, maxInflight, init, f);
    } else {
      NotDisturbedBeforeAdmission(maxSize, maxInflight, init, f);
    }
  }

  /** Exactly when a successful load is stored: nothing touched its key since its
      admission and no flight of its key was abandoned since then. */
  lemma PublishedIffUndisturbed(maxSize: nat, maxInflight: nat, steps: seq<Step>, f: nat, v: Val, tick: int)
    requires maxSize >= 1 && f in Run(maxSize, maxInflight, steps).cache.owned
    ensures var w := Run(maxSize, maxInflight, steps);
      var c, d := w.cache, Apply(w, CompleteStep(f, Returned(v), Tick(tick))).cache;
      && f < |c.flights| == |d.flights| && d.flights[f].outcome == Some(Returned(v)) && f !in d.owned
      && (!DisturbedSince(maxSize, maxInflight, steps, f) ==>
            var key := c.flights[f].key;
            key in d.core.entries && d.core.entries[key].value == v
            && d.core.entries[key].expiresAt == ClampTick(c.core, tick).lastTick + c.flights[f].ttl)
      && (DisturbedSince(maxSize, maxInflight, steps, f) ==>
            d.core.entries == c.core.entries && d.core.order == c.core.order && d.core.heap == c.core.heap)
  {
    hide SettledCore, Inv, Run, DisturbedSince, Keys, DropUnused, WaitersExact;
    var c := Run(maxSize, maxInflight, steps).cache;
    InRange(Run(maxSize, maxInflight, steps));
    CurrentIffUndisturbed(maxSize, maxInflight, steps, f);
    CanPublishIff(c, f);
    SettleFresh(c, f, Returned(v), Tick(tick), CanPublish(c, f),
      map k | k in c.core.entries :: Written(c.core.entries[k].value, c.core.entries[k].expiresAt));
  }

  /** However a load ends, its flight ends with its result or failure, or with that of a
      clock that fails while an undisturbed result is being stored. */
  lemma OutcomeIff(maxSize: nat, maxInflight: nat, steps: seq<Step>, f: nat, loaded: Outcome, clock: ClockRead)
    requires maxSize >= 1 && f in Run(maxSize, maxInflight, steps).cache.owned
    ensures var w := Run(maxSize, maxInflight, steps);
      var c, d := w.cache, Apply(w, CompleteStep(f, loaded, clock)).cache;
      var stores := loaded.Returned? && !DisturbedSince(maxSize, maxInflight, steps, f);
      && f < |c.flights| == |d.flights| && f !in d.owned
      && d.flights[f].outcome == Some(if stores && clock.ClockRaised? then Raised(clock.error) else loaded)
      && (!stores || clock.ClockRaised? ==>
            d.core.entries == c.core.entries && d.core.order == c.core.order && d.core.heap == c.core.heap)
      && (forall g | 0 <= g < |c.flights| && g != f :: d.flights[g] == c.flights[g])
  {
    hide SettledCore, Inv, Run, DisturbedSince, Keys, DropUnused, WaitersExact;
    var c := Run(maxSize, maxInflight, steps).cache;
    InRange(Run(maxSize, maxInflight, steps));
    CurrentIffUndisturbed(maxSize, maxInflight, steps, f);
    CanPublishIff(c, f);
    SettleFresh(c, f, loaded, clock, loaded.Returned? && CanPublish(c, f), SyncCache.SelfLedger(c.core));
  }

  /** An abandoned flight is disturbed: its load is never stored. */
  lemma AbandonedNeverStored(maxSize: nat, maxInflight: nat, steps: seq<Step>, f: nat)
    requires maxSize >= 1 && f in Run(maxSize, maxInflight, steps).cache.owned
    requires f < |Run(maxSize, maxInflight, steps).cache.flights| &&
        Run(maxSize, maxInflight, steps).cache.flights[f].abandoned
    ensures DisturbedSince(maxSize, maxInflight, steps, f)
  {
    hide Valid, VersionsBounded, Run, DisturbedSince, WaitersExact;
    CurrentIffUndisturbed(maxSize, maxInflight, steps, f);
  }

  /** The newer flight can lose: a load is superseded by an invalidate, a new load
      of the key starts, the old load's only caller gives up, and the new load's
      value is dropped although nothing touched the key since it was admitted. */
  lemma AbandonBlocksNewerFlight(k: Key, v: Val)
    ensures var steps := [LoadStep(k, 10, 0, None), InvalidateStep(k, 0), LoadStep(k, 10, 0, None), ReleaseStep(0)];
      var w := Run(2, 2, steps);
      && 1 in w.cache.owned && Active(w.cache, 1)
      && !w.cache.flights[1].superseded && !w.cache.flights[1].abandoned && CallersOf(w, 1) == {1}
      && Apply(w, CompleteStep(1, Returned(v), Tick(0))).cache.core.entries == map[]
  {
    hide Apply, Inv, WaitersExact;
    var steps := [LoadStep(k, 10, 0, None), InvalidateStep(k, 0), LoadStep(k, 10, 0, None), ReleaseStep(0)];
    assert steps[..3] == [steps[0], steps[1], steps[2]] && steps[..3][..2] == [steps[0], steps[1]];
    assert steps[..3][..2][..1] == [steps[0]] && steps[..3][..2][..1][..0] == [];
    var w1 := Run(2, 2, steps[..3][..2][..1]);
    FirstLoad(k);
    assert Run(2, 2, []) == World(New(2, 2), map[], 0);
    assert w1 == Apply(Run(2, 2, []), steps[0]);
    assert w1 == AfterFirstLoad(k);
    ThenInvalidate(k, w1);
    ThenLoad(k, Run(2, 2, steps[..3][..2]));
    ThenRelease(k, Run(2, 2, steps[..3]));
    ThenComplete(k, v, Run(2, 2, steps));
  }

  function Tables(
    k: Key, misses: nat, loads: nat, versions: map<Key, nat>, active: map<Key, nat>, owned: set<nat>,
    flights: seq<Flight>): Cache
  {
    Cache(Initial(2).(counters := ZeroCounters.(misses := misses, loads := loads), versions := versions), 2, active,
      owned, flights)
  }

  function OldFlight(k: Key): Flight {
    Flight(k, 0, 0, 10, false, false, 1, true, None)
  }

  function NewerFlight(k: Key): Flight {
    Flight(k, 0, 1, 10, false, false, 1, true, None)
  }

  function AfterFirstLoad(k: Key): World {
    World(Tables(k, 1, 1, map[], map[k := 0], {0}, [OldFlight(k)]), map[0 := 0], 1)
  }

  function AfterInvalidate(k: Key): World {
    World(Tables(k, 1, 1, map[k := 1], map[], {0}, [OldFlight(k).(superseded := true)]), map[0 := 0], 1)
  }

  function AfterSecondLoad(k: Key): World {
    World(Tables(k, 2, 2, map[k := 1], map[k := 1], {0, 1}, [OldFlight(k).(superseded := true), NewerFlight(k)]),
          map[0 := 0, 1 := 1], 2)
  }

  function AfterRelease(k: Key): World {
    World(Tables(k, 2, 2, map[k := 2], map[k := 1], {0, 1},
                 [OldFlight(k).(superseded := true, waiters := 0, abandoned := true), NewerFlight(k)]),
          map[1 := 1], 2)
  }

  lemma FirstLoad(k: Key)
    ensures Inv(New(2, 2)) && Apply(World(New(2, 2), map[], 0), LoadStep(k, 10, 0, None)) == AfterFirstLoad(k)
  {
  }

  lemma ThenInvalidate(k: Key, w: World)
    requires Inv(w.cache) && CallersInRange(w) && w == AfterFirstLoad(k)
    ensures Apply(w, InvalidateStep(k, 0)) == AfterInvalidate(k)
  {
    hide Inv;
    var n := Supersede(Clamped(w.cache, 0), k);
    assert n.flights == [OldFlight(k).(superseded := true)] && n.active == map[];
    assert k in Keys(n);
    assert Without([], k) == [];
  }

  lemma ThenLoad(k: Key, w: World)
    requires Inv(w.cache) && CallersInRange(w) && w == AfterInvalidate(k)
    ensures Apply(w, LoadStep(k, 10, 0, None)) == AfterSecondLoad(k)
  {
    hide Inv;
  }

  lemma ThenRelease(k: Key, w: World)
    requires Inv(w.cache) && CallersInRange(w) && w == AfterSecondLoad(k)
    ensures Apply(w, ReleaseStep(0)) == AfterRelease(k)
  {
    hide Inv;
  }

  lemma ThenComplete(k: Key, v: Val, w: World)
    requires Inv(w.cache) && CallersInRange(w) && w == AfterRelease(k)
    ensures Apply(w, CompleteStep(1, Returned(v), Tick(0))).cache.core.entries == map[]
    ensures CallersOf(w, 1) == {1} && Active(w.cache, 1)
  {
    hide Inv;
  }

  // ----- freshness and bounds -----

  ghost function Ledger(maxSize: nat, maxInflight: nat, steps: seq<Step>): map<Key, Written>
    requires maxSize >= 1
  {
    if steps == [] then map[]
    else
      var init, last := steps[..|steps| - 1], steps[|steps| - 1];
      var prior := Run(maxSize, maxInflight, init).cache;
      var now := Run(maxSize, maxInflight, steps).cache.core.lastTick;
      var ledger := Ledger(maxSize, maxInflight, init);
      match last
      case SetStep(key, value, ttl, _) => ledger[key := Written(value, now + ttl)]
      case InvalidateStep(key, _) => ledger - {key}
      case ClearStep(_) => map[]
      case CompleteStep(f, loaded, clock) =>
        if f in prior.owned && f < |prior.flights| && loaded.Returned? && clock.Tick?
           && !DisturbedSince(maxSize, maxInflight, init, f)
        then ledger[prior.flights[f].key := Written(loaded.value, now + prior.flights[f].ttl)]
        else ledger
      case _ => ledger
  }

  lemma BeginLoadEntries(c: Cache, key: Key, ttl: int, tick: int, taskError: Option<Failure>)
    ensures BeginLoad(c, key, ttl, tick, taskError).0.core.entries == Read(c, key, tick).0.core.entries
  {
    hide Get;
  }

  lemma ReleaseEntries(c: Cache, f: nat)
    requires f < |c.flights|
    ensures Release(c, f).0.core.entries == c.core.entries
  {
  }

  lemma {:induction false} RunFresh(maxSize: nat, maxInflight: nat, steps: seq<Step>)
    requires maxSize >= 1
    ensures Fresh(Run(maxSize, maxInflight, steps).cache.core, Ledger(maxSize, maxInflight, steps))
  {
    hide Inv, DisturbedSince, Fresh, Read, Write, Remove, Purged, Settle, BeginLoad, Release, WaitersExact;
    if steps == [] {
      SyncCache.NothingFresh(Initial(maxSize));
    } else {
      var init, last := steps[..|steps| - 1], steps[|steps| - 1];
      RunFresh(maxSize, maxInflight, init);
      InRange(Run(maxSize, maxInflight, init));
      var w, l := Run(maxSize, maxInflight, init), Ledger(maxSize, maxInflight, init);
      var c := w.cache;
      match last
      case GetStep(key, tick) => ReadFresh(c, key, tick, l);
      case SetStep(key, value, ttl, tick) => WriteFresh(c, key, value, ttl, tick, l);
      case InvalidateStep(key, tick) => RemoveFresh(c, key, tick, l);
      case ClearStep(tick) => SyncCache.NothingFresh(Apply(w, last).cache.core);
      case PurgeStep(tick) => PurgedFresh(c, tick, l);
      case LoadStep(key, ttl, tick, taskError) =>
        ReadFresh(c, key, tick, l);
        BeginLoadEntries(c, key, ttl, tick, taskError);
        SyncCache.SameEntriesFresh(Read(c, key, tick).0.core, Apply(w, last).cache.core, l);
      case ReleaseStep(caller) =>
        if caller in w.callers {
          ReleaseEntries(c, w.callers[caller]);
          SyncCache.SameEntriesFresh(c.core, Apply(w, last).cache.core, l);
        }
      case CompleteStep(f, loaded, clock) =>
        if f in c.owned {
          CurrentIffUndisturbed(maxSize, maxInflight, init, f);
          CanPublishIff(c, f);
          SettleFresh(c, f, loaded, clock, loaded.Returned? && CanPublish(c, f), l);
        }
    }
  }

  /** A hit returns the last set or undisturbed load of its key, before its
      deadline on a clock that never runs back. */
  lemma HitIsFresh(maxSize: nat, maxInflight: nat, steps: seq<Step>, key: Key, tick: int)
    requires maxSize >= 1
    ensures var c := Run(maxSize, maxInflight, steps).cache;
      var (d, r) := Read(c, key, tick);
      r.Some? ==>
        && d.core.lastTick >= tick && d.core.lastTick >= c.core.lastTick
        && key in Ledger(maxSize, maxInflight, steps)
        && Ledger(maxSize, maxInflight, steps)[key].value == r.value
        && Ledger(maxSize, maxInflight, steps)[key].expiresAt > d.core.lastTick
  {
    hide Inv, Run, Ledger, Fresh, Read;
    RunFresh(maxSize, maxInflight, steps);
    ReadFresh(Run(maxSize, maxInflight, steps).cache, key, tick, Ledger(maxSize, maxInflight, steps));
  }

  lemma RunBounded(maxSize: nat, maxInflight: nat, steps: seq<Step>)
    requires maxSize >= 1
    ensures var c := Run(maxSize, maxInflight, steps).cache;
      && |c.core.entries| <= maxSize && |c.core.heap| <= 2 * maxSize
      && |c.owned| <= maxInflight
      && |c.core.versions| <= maxSize + maxInflight
  {
    hide Inv, Run;
    InvBounded(Run(maxSize, maxInflight, steps).cache);
  }
}
