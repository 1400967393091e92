/** The leader lock's server side as an abstract machine: a fencing counter and at
    most one lease with a deadline.  A run is any sequence of script executions
    by any clients, however late each arrives, on a clock that does not run back. */
module LeaderServer {
  import opened Wrappers
  import opened Decimal
  import opened LeaseRecord

  datatype Lease = Lease(record: Record, deadline: int)

  /** `counter` is 0 while the fence and history keys do not exist. */
  datatype Server = Server(counter: nat, lease: Option<Lease>)

  datatype Command =
    | Acquire(owner: string, ttl: nat)
    | Renew(record: Record, ttl: nat)
    | Probe(record: Record)
    | Reconcile
    | Release(record: Record, minimum: nat)

  datatype Reply =
    | Acquired(fence: nat) | Contended | Corrupt
    | Renewed | Held | NotHeld
    | Present(record: Record) | Missing
    | Deleted | MinimumApplied

  /** A lease vanishes at its deadline. */
  function Current(s: Server, now: int): Server {
    if s.lease.Some? && now >= s.lease.value.deadline then s.(lease := None) else s
  }

  predicate Holds(s: Server, now: int, r: Record) {
    var c := Current(s, now);
    c.lease.Some? && c.lease.value.record == r
  }

  function Execute(s: Server, c: Command, now: int): (Server, Reply) {
    var t := Current(s, now);
    match c
    case Acquire(owner, ttl) =>
      if t.lease.Some? then (t, Contended)
      else if t.counter >= MAX_FENCE then (t, Corrupt)
      else
        (Server(t.counter + 1, Some(Lease(Record(owner, t.counter + 1), now + ttl))), Acquired(t.counter + 1))
    case Renew(r, ttl) =>
      if Holds(s, now, r) then (t.(lease := Some(Lease(r, now + ttl))), Renewed) else (t, NotHeld)
    case Probe(r) => (t, if Holds(s, now, r) then Held else NotHeld)
    case Reconcile => (t, if t.lease.Some? then Present(t.lease.value.record) else Missing)
    case Release(r, minimum) =>
      if !Holds(s, now, r) then (t, NotHeld)
      else if minimum == 0 then (t.(lease := None), Deleted)
      else (t.(lease := Some(Lease(r, now + minimum))), MinimumApplied)
  }

  // ----- runs -----

  /** A script executed `delay` milliseconds after the previous one. */
  datatype Step = Step(delay: nat, command: Command)

  datatype World = World(server: Server, now: int)

  const Empty := World(Server(0, None), 0)

  function Advance(w: World, step: Step): (World, Reply) {
    var (s, reply) := Execute(w.server, step.command, w.now + step.delay);
    (World(s, w.now + step.delay), reply)
  }

  function Run(steps: seq<Step>): World {
    if steps == [] then Empty else Advance(Run(steps[..|steps| - 1]), steps[|steps| - 1]).0
  }

  /** The reply to the step at position `i` of a run. */
  function ReplyAt(steps: seq<Step>, i: nat): Reply
    requires i < |steps|
  {
    Advance(Run(steps[..i]), steps[i]).1
  }

  /** The lease, while there is one, carries the counter as its fence. */
  predicate Inv(s: Server) {
    s.counter <= MAX_FENCE && (s.lease.Some? ==> s.lease.value.record.fence == s.counter && s.counter >= 1)
  }

  lemma ExecuteInv(s: Server, c: Command, now: int)
    requires Inv(s)
    ensures Inv(Execute(s, c, now).0) && Execute(s, c, now).0.counter >= s.counter
  {
  }

  lemma RunInv(steps: seq<Step>)
    ensures Inv(Run(steps).server)
  {
    if steps != [] { RunInv(steps[..|steps| - 1]); }
  }

  lemma {:induction false} CounterGrows(steps: seq<Step>, i: nat)
    requires i <= |steps|
    ensures Run(steps[..i]).server.counter <= Run(steps).server.counter && Run(steps[..i]).now <= Run(steps).now
  {
    if i == |steps| {
      assert steps[..i] == steps;
    } else {
      var init := steps[..|steps| - 1];
      assert init[..i] == steps[..i];
      CounterGrows(init, i);
      RunInv(init);
      ExecuteInv(Run(init).server, steps[|steps| - 1].command, Run(steps).now);
    }
  }

  /** Every fence handed out is greater than every earlier one. */
  lemma FencesIncrease(steps: seq<Step>, i: nat, j: nat)
    requires i < j < |steps| && ReplyAt(steps, i).Acquired? && ReplyAt(steps, j).Acquired?
    ensures ReplyAt(steps, i).fence < ReplyAt(steps, j).fence
  {
    hide Run, Execute;
    var prefix := steps[..j];
    assert prefix[..i + 1] == steps[..i + 1] && steps[..i + 1][..i] == steps[..i];
    CounterGrows(prefix, i + 1);
    FenceIsCounter(steps, i);
    FenceIsCounter(steps, j);
  }

  lemma FenceIsCounter(steps: seq<Step>, i: nat)
    requires i < |steps| && ReplyAt(steps, i).Acquired?
    ensures ReplyAt(steps, i).fence == Run(steps[..i + 1]).server.counter == Run(steps[..i]).server.counter + 1
  {
    assert steps[..i + 1][..i] == steps[..i];
  }

  /** An acquire is refused as corrupt only when the counter is at its last value. */
  lemma CorruptOnlyWhenExhausted(steps: seq<Step>, i: nat)
    requires i < |steps| && ReplyAt(steps, i) == Corrupt
    ensures steps[i].command.Acquire? && Run(steps[..i]).server.counter == MAX_FENCE
  {
    RunInv(steps[..i]);
  }

  // ----- stale commands -----

  predicate Carries(c: Command, r: Record) {
    match c
    case Renew(x, _) => x == r
    case Probe(x) => x == r
    case Release(x, _) => x == r
    case _ => false
  }

  /** Executed however late, a command that carries `r` changes nothing unless the
      lease is exactly `r`. */
  lemma StaleCommandHarmless(s: Server, c: Command, r: Record, now: int)
    requires Carries(c, r) && !Holds(s, now, r)
    ensures Execute(s, c, now) == (Current(s, now), NotHeld)
  {
  }

  /** `r` was handed out at some time, and the lease is no longer `r`. */
  predicate Gone(s: Server, now: int, r: Record) {
    r.fence <= s.counter && !Holds(s, now, r)
  }

  lemma GoneStep(s: Server, now: int, later: int, c: Command, r: Record)
    requires Inv(s) && Gone(s, now, r) && now <= later
    ensures Gone(s, later, r) && Gone(Execute(s, c, later).0, later, r)
  {
  }

  /** Once the lease stops being a record that was handed out, it never becomes
      that record again. */
  lemma {:induction false} NeverHeldAgain(steps: seq<Step>, i: nat, r: Record)
    requires i <= |steps| && Gone(Run(steps[..i]).server, Run(steps[..i]).now, r)
    ensures Gone(Run(steps).server, Run(steps).now, r)
  {
    hide Gone;
    if i == |steps| {
      assert steps[..i] == steps;
    } else {
      var init := steps[..|steps| - 1];
      assert init[..i] == steps[..i];
      NeverHeldAgain(init, i, r);
      RunInv(init);
      GoneStep(Run(init).server, Run(init).now, Run(steps).now, steps[|steps| - 1].command, r);
    }
  }

  /** Mutual exclusion: two different records are never held at one time, and of
      two records held at different times the later has the greater fence. */
  lemma HeldRecordsOrdered(steps: seq<Step>, i: nat, r: Record, q: Record)
    requires i <= |steps| && r != q
    requires Holds(Run(steps[..i]).server, Run(steps[..i]).now, r) && Holds(Run(steps).server, Run(steps).now, q)
    ensures r.fence < q.fence
  {
    RunInv(steps[..i]);
    RunInv(steps);
    CounterGrows(steps, i);
    if q.fence == r.fence {
      assert Gone(Run(steps[..i]).server, Run(steps[..i]).now, q);
      NeverHeldAgain(steps, i, q);
    }
  }

  // ----- who gets the lease -----

  predicate LiveLease(s: Server, now: int) {
    s.lease.Some? && now < s.lease.value.deadline
  }

  predicate LiveFor(s: Server, now: int, r: Record) {
    LiveLease(s, now) && s.lease.value.record == r
  }

  /** Mutual exclusion at the server: in every run an acquire is contended exactly
      while a lease is live, whoever holds it, and then changes nothing.  Otherwise
      it takes the next fence and leaves exactly the caller's lease, or is refused
      for want of fences. */
  lemma AcquireIff(steps: seq<Step>, i: nat)
    requires i < |steps| && steps[i].command.Acquire?
    ensures var before, after := Run(steps[..i]).server, Run(steps[..i + 1]).server;
      var now := Run(steps[..i]).now + steps[i].delay;
      var reply := ReplyAt(steps, i);
      && (reply == Contended <==> LiveLease(before, now))
      && (reply.Acquired? <==> !LiveLease(before, now) && before.counter < MAX_FENCE)
      && (reply == Corrupt <==> !LiveLease(before, now) && before.counter == MAX_FENCE)
      && (reply == Contended ==> after == before)
      && (reply == Corrupt ==> after == Server(MAX_FENCE, None))
      && (reply.Acquired? ==>
            && reply.fence == before.counter + 1 == after.counter
            && after.lease == Some(Lease(
                 Record(steps[i].command.owner, before.counter + 1), now + steps[i].command.ttl)))
  {
    RunInv(steps[..i]);
    assert steps[..i + 1][..i] == steps[..i];
  }

  /** The other replies tell exactly whether the record named, or any, holds a live
      lease, and only a renew or release of that record moves its deadline. */
  lemma RepliesIff(steps: seq<Step>, i: nat)
    requires i < |steps|
    ensures var before, after := Run(steps[..i]).server, Run(steps[..i + 1]).server;
      var now := Run(steps[..i]).now + steps[i].delay;
      var reply := ReplyAt(steps, i);
      match steps[i].command
      case Acquire(_, _) => true
      case Renew(r, ttl) =>
        && (reply == Renewed <==> LiveFor(before, now, r)) && (reply == NotHeld <==> !LiveFor(before, now, r))
        && (reply == Renewed ==> after == before.(lease := Some(Lease(r, now + ttl))))
      case Probe(r) =>
        && (reply == Held <==> LiveFor(before, now, r)) && (reply == NotHeld <==> !LiveFor(before, now, r))
        && (LiveLease(before, now) ==> after == before)
      case Reconcile =>
        && (forall r :: reply == Present(r) <==> LiveFor(before, now, r))
        && (reply == Missing <==> !LiveLease(before, now))
        && (LiveLease(before, now) ==> after == before)
      case Release(r, minimum) =>
        && (reply == Deleted <==> LiveFor(before, now, r) && minimum == 0)
        && (reply == MinimumApplied <==> LiveFor(before, now, r) && minimum > 0)
        && (reply == NotHeld <==> !LiveFor(before, now, r))
        && (reply == Deleted ==> after == before.(lease := None))
        && (reply == MinimumApplied ==> after == before.(lease := Some(Lease(r, now + minimum))))
  {
    assert steps[..i + 1][..i] == steps[..i];
  }

  // ----- what can prolong a lease -----

  predicate HeldBeyond(s: Server, r: Record, deadline: int) {
    s.lease.Some? && s.lease.value.record == r && s.lease.value.deadline > deadline
  }

  /** The time a command asks `r` to be kept, or 0. */
  function Asks(c: Command, r: Record): nat {
    match c
    case Renew(x, ttl) => if x == r then ttl else 0
    case Release(x, minimum) => if x == r then minimum else 0
    case _ => 0
  }

  /** At `now` the command finds `r` held and asks to keep it beyond `deadline`. */
  predicate Prolongs(s: Server, c: Command, now: int, r: Record, deadline: int) {
    Holds(s, now, r) && Asks(c, r) > 0 && now + Asks(c, r) > deadline
  }

  /** One script takes `r` beyond a deadline exactly when it is such a command. */
  lemma ProlongStep(s: Server, c: Command, now: int, r: Record, deadline: int)
    requires Inv(s) && r.fence <= s.counter && !HeldBeyond(s, r, deadline)
    ensures HeldBeyond(Execute(s, c, now).0, r, deadline) <==> Prolongs(s, c, now, r, deadline)
  {
  }

  /** The run that goes on from `w`. */
  function Continue(w: World, steps: seq<Step>): World {
    if steps == [] then w else Advance(Continue(w, steps[..|steps| - 1]), steps[|steps| - 1]).0
  }

  predicate ProlongsAt(w: World, steps: seq<Step>, k: nat, r: Record, deadline: int)
    requires k < |steps|
  {
    var v := Continue(w, steps[..k]);
    Prolongs(v.server, steps[k].command, v.now + steps[k].delay, r, deadline)
  }

  lemma {:induction false} ContinueInv(w: World, steps: seq<Step>, r: Record)
    requires Inv(w.server) && r.fence <= w.server.counter
    ensures Inv(Continue(w, steps).server) && r.fence <= Continue(w, steps).server.counter
  {
    hide Inv, Execute;
    if steps != [] {
      var last := |steps| - 1;
      ContinueInv(w, steps[..last], r);
      var v := Continue(w, steps[..last]);
      ExecuteInv(v.server, steps[last].command, v.now + steps[last].delay);
    }
  }

  lemma ContinueStep(w: World, steps: seq<Step>, k: nat, r: Record, deadline: int)
    requires Inv(w.server) && r.fence <= w.server.counter && k < |steps|
    ensures !HeldBeyond(Continue(w, steps[..k]).server, r, deadline) ==>
      (HeldBeyond(Continue(w, steps[..k + 1]).server, r, deadline) <==> ProlongsAt(w, steps, k, r, deadline))
  {
    hide Inv, Execute, Prolongs, HeldBeyond;
    assert steps[..k + 1][..k] == steps[..k];
    ContinueInv(w, steps[..k], r);
    var v := Continue(w, steps[..k]);
    if !HeldBeyond(v.server, r, deadline) {
      ProlongStep(v.server, steps[k].command, v.now + steps[k].delay, r, deadline);
    }
  }

  lemma {:induction false} NotProlonged(w: World, steps: seq<Step>, n: nat, r: Record, deadline: int)
    requires Inv(w.server) && r.fence <= w.server.counter && !HeldBeyond(w.server, r, deadline) && n <= |steps|
    requires forall k :: 0 <= k < n ==> !ProlongsAt(w, steps, k, r, deadline)
    ensures !HeldBeyond(Continue(w, steps[..n]).server, r, deadline)
  {
    hide Inv, HeldBeyond, ProlongsAt;
    if n == 0 {
      assert Continue(w, steps[..0]) == w;
    } else {
      NotProlonged(w, steps, n - 1, r, deadline);
      ContinueStep(w, steps, n - 1, r, deadline);
    }
  }

  /** A lease of `r` is ever held beyond its deadline if and only if some executed
      renew or release of `r` finds it held and asks for that much; whatever else
      is executed, and however late, cannot prolong it. */
  lemma ProlongedIff(w: World, steps: seq<Step>, r: Record, deadline: int)
    requires Inv(w.server) && r.fence <= w.server.counter && !HeldBeyond(w.server, r, deadline)
    ensures (exists n :: 0 <= n <= |steps| && HeldBeyond(Continue(w, steps[..n]).server, r, deadline))
       <==> (exists k :: 0 <= k < |steps| && ProlongsAt(w, steps, k, r, deadline))
  {
    hide Inv, HeldBeyond, ProlongsAt, Continue;
    if n :| 0 <= n <= |steps| && HeldBeyond(Continue(w, steps[..n]).server, r, deadline) {
      if forall k :: 0 <= k < |steps| ==> !ProlongsAt(w, steps, k, r, deadline) {
        NotProlonged(w, steps, n, r, deadline);
      }
    }
    if k :| 0 <= k < |steps| && ProlongsAt(w, steps, k, r, deadline) {
      ContinueStep(w, steps, k, r, deadline);
    }
  }

  // ----- what can shorten a lease -----

  predicate HeldUntil(s: Server, r: Record, deadline: int) {
    s.lease.Some? && s.lease.value.record == r && s.lease.value.deadline >= deadline
  }

  /** A renew or release of `r` that asks for less than `deadline`; deleting asks for
      nothing. */
  predicate Cuts(c: Command, now: int, r: Record, deadline: int) {
    (c.Renew? || c.Release?) && c.record == r && now + Asks(c, r) < deadline
  }

  /** Before its deadline a lease is cut short by such a command and by nothing else,
      an acquire by another client least of all. */
  lemma CutStep(s: Server, c: Command, now: int, r: Record, deadline: int)
    requires HeldUntil(s, r, deadline) && now < deadline
    ensures !HeldUntil(Execute(s, c, now).0, r, deadline) <==> Cuts(c, now, r, deadline)
    ensures c.Acquire? ==> Execute(s, c, now) == (s, Contended)
  {
  }

  predicate CutsAt(w: World, steps: seq<Step>, k: nat, r: Record, deadline: int)
    requires k < |steps|
  {
    Cuts(steps[k].command, Continue(w, steps[..k]).now + steps[k].delay, r, deadline)
  }

  lemma {:induction false} TimePasses(w: World, steps: seq<Step>, n: nat)
    requires n <= |steps|
    ensures Continue(w, steps[..n]).now <= Continue(w, steps).now
    ensures n < |steps| ==> Continue(w, steps[..n]).now + steps[n].delay <= Continue(w, steps).now
    decreases |steps|
  {
    hide Execute;
    if n == |steps| {
      assert steps[..n] == steps;
    } else {
      var init := steps[..|steps| - 1];
      assert init[..n] == steps[..n];
      TimePasses(w, init, n);
    }
  }

  lemma NextHeld(w: World, steps: seq<Step>, n: nat, r: Record, deadline: int)
    requires n < |steps| && Continue(w, steps).now < deadline
    requires HeldUntil(Continue(w, steps[..n]).server, r, deadline)
    ensures !HeldUntil(Continue(w, steps[..n + 1]).server, r, deadline) <==> CutsAt(w, steps, n, r, deadline)
    ensures steps[n].command.Acquire? ==> Advance(Continue(w, steps[..n]), steps[n]).1 == Contended
  {
    hide Execute, Cuts, HeldUntil;
    assert steps[..n + 1][..n] == steps[..n];
    TimePasses(w, steps, n);
    var v := Continue(w, steps[..n]);
    CutStep(v.server, steps[n].command, v.now + steps[n].delay, r, deadline);
  }

  lemma {:induction false} StillHeld(w: World, steps: seq<Step>, n: nat, r: Record, deadline: int)
    requires HeldUntil(w.server, r, deadline) && Continue(w, steps).now < deadline && n <= |steps|
    requires forall k :: 0 <= k < n ==> !CutsAt(w, steps, k, r, deadline)
    ensures HeldUntil(Continue(w, steps[..n]).server, r, deadline)
  {
    hide CutsAt, HeldUntil;
    if n == 0 {
      assert Continue(w, steps[..0]) == w;
    } else {
      StillHeld(w, steps, n - 1, r, deadline);
      NextHeld(w, steps, n - 1, r, deadline);
    }
  }

  /** Until its deadline a lease is lost if and only if its own holder renews it for
      less or releases it, and while it is not lost every acquire is contended. */
  lemma LostEarlyIff(w: World, steps: seq<Step>, r: Record, deadline: int)
    requires HeldUntil(w.server, r, deadline) && Continue(w, steps).now < deadline
    ensures (exists n :: 0 <= n <= |steps| && !HeldUntil(Continue(w, steps[..n]).server, r, deadline))
       <==> (exists k :: 0 <= k < |steps| && CutsAt(w, steps, k, r, deadline))
    ensures (forall k :: 0 <= k < |steps| ==> !CutsAt(w, steps, k, r, deadline)) ==>
      forall k :: 0 <= k < |steps| && steps[k].command.Acquire? ==>
        Advance(Continue(w, steps[..k]), steps[k]).1 == Contended
  {
    hide CutsAt, HeldUntil, Continue, Advance;
    if n :| 0 <= n <= |steps| && !HeldUntil(Continue(w, steps[..n]).server, r, deadline) {
      if forall k :: 0 <= k < |steps| ==> !CutsAt(w, steps, k, r, deadline) {
        StillHeld(w, steps, n, r, deadline);
      }
    }
    if k :| 0 <= k < |steps| && CutsAt(w, steps, k, r, deadline) {
      if HeldUntil(Continue(w, steps[..k]).server, r, deadline) { NextHeld(w, steps, k, r, deadline); }
    }
    if forall k :: 0 <= k < |steps| ==> !CutsAt(w, steps, k, r, deadline) {
      forall k | 0 <= k < |steps| && steps[k].command.Acquire?
        ensures Advance(Continue(w, steps[..k]), steps[k]).1 == Contended
      {
        StillHeld(w, steps, k, r, deadline);
        NextHeld(w, steps, k, r, deadline);
      }
    }
  }
}
