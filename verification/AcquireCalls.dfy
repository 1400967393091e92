/** One `try_acquire` call against the server: attempts repeated while contended, a
    reconciliation once an attempt's outcome is uncertain, every script executed
    when and if it happens to be.  Its owner token is used by no one else. */
module AcquireCalls {
  import opened Wrappers
  import opened LeaseRecord
  import opened LeaderServer
  import LeaderHandle
  import LeaderRuns

  datatype Request = Request(command: Command, reply: Option<Reply>)

  /** Where the call stands; `attempted` is set by the first attempt. */
  datatype Progress =
    | Ready(attempted: bool)
    | Attempting(request: nat)
    | Reconciling(request: nat)
    | Returned(record: Record)
    | ReturnedNone
    | Failed

  datatype System = System(owner: string, server: Server, now: int, requests: seq<Request>, progress: Progress)

  datatype Event =
    | Attempt(ttl: nat)
    | DeadlinePassed
    | ExecuteRequest(request: nat, delay: nat)
    | Deliver
    | Lose(uncertain: bool)
    | OtherClient(command: Command, delay: nat)

  function Send(w: System, command: Command, attempt: bool): System {
    w.(requests := w.requests + [Request(command, None)],
       progress := if attempt then Attempting(|w.requests|) else Reconciling(|w.requests|))
  }

  function AfterAttempt(reply: Reply, owner: string): Progress {
    match reply
    case Acquired(fence) => Returned(Record(owner, fence))
    case Contended => Ready(true)
    case _ => Failed
  }

  function AfterReconcile(reply: Reply, owner: string): Progress {
    if reply.Present? && reply.record.owner == owner then Returned(reply.record) else Failed
  }

  /** The request the call waits for. */
  function Awaited(w: System): Option<Request> {
    match w.progress
    case Attempting(r) => if r < |w.requests| then Some(w.requests[r]) else None
    case Reconciling(r) => if r < |w.requests| then Some(w.requests[r]) else None
    case _ => None
  }

  /** Not another call's: those have other owner tokens. */
  predicate Foreign(command: Command, owner: string) {
    command.Acquire? ==> command.owner != owner
  }

  function Apply(w: System, e: Event): System {
    match e
    case Attempt(ttl) => if w.progress.Ready? then Send(w, Acquire(w.owner, ttl), true) else w
    case DeadlinePassed => if w.progress == Ready(true) then w.(progress := ReturnedNone) else w
    case ExecuteRequest(r, delay) =>
      if r < |w.requests| && w.requests[r].reply.None? then
        var (s, reply) := Execute(w.server, w.requests[r].command, w.now + delay);
        w.(server := s, now := w.now + delay, requests := w.requests[r := w.requests[r].(reply := Some(reply))])
      else w
    case Deliver =>
      if Awaited(w).Some? && Awaited(w).value.reply.Some? then
        var reply := Awaited(w).value.reply.value;
        w.(progress := if w.progress.Attempting? then AfterAttempt(reply, w.owner) else AfterReconcile(reply, w.owner))
      else w
    case Lose(uncertain) =>
      if w.progress.Attempting? && uncertain then Send(w, Reconcile, false)
      else if w.progress.Attempting? || w.progress.Reconciling? then w.(progress := Failed)
      else w
    case OtherClient(command, delay) =>
      if Foreign(command, w.owner) then
        w.(server := Execute(w.server, command, w.now + delay).0, now := w.now + delay)
      else w
  }

  // ----- invariants -----

  predicate Wrote(q: Request, r: Record) {
    q.command.Acquire? && q.command.owner == r.owner && q.reply == Some(Acquired(r.fence))
  }

  ghost predicate SomeWrote(w: System, r: Record) {
    exists i :: 0 <= i < |w.requests| && Wrote(w.requests[i], r)
  }

  /** All but the last attempt were answered, and contended. */
  predicate SettledBefore(w: System, n: nat) {
    forall i :: 0 <= i < n && i < |w.requests| && w.requests[i].command.Acquire? ==>
        w.requests[i].reply == Some(Contended)
  }

  /** Where the one attempt that may have acquired is. */
  predicate Attempts(w: System) {
    match w.progress
    case Ready(_) => SettledBefore(w, |w.requests|)
    case ReturnedNone => SettledBefore(w, |w.requests|)
    case Attempting(r) => |w.requests| == r + 1 && w.requests[r].command.Acquire? && SettledBefore(w, r)
    case Reconciling(r) =>
      && |w.requests| == r + 1 && r >= 1 && w.requests[r].command == Reconcile
      && SettledBefore(w, r - 1)
    case _ =>
      || (|w.requests| >= 1 && SettledBefore(w, |w.requests| - 1))
      || (|w.requests| >= 2 && !w.requests[|w.requests| - 1].command.Acquire? && SettledBefore(w, |w.requests| - 2))
  }

  predicate Own(q: Request, owner: string) {
    q.command == Reconcile || (q.command.Acquire? && q.command.owner == owner)
  }

  predicate AllOwn(w: System) {
    forall i :: 0 <= i < |w.requests| ==> Own(w.requests[i], w.owner)
  }

  /** What a reconciliation found under this owner is what an attempt wrote. */
  ghost predicate Found(w: System) {
    forall i :: 0 <= i < |w.requests| ==> FoundBy(w, w.requests[i])
  }

  ghost predicate FoundBy(w: System, q: Request) {
    q.reply.Some? && q.reply.value.Present? && q.reply.value.record.owner == w.owner ==>
        SomeWrote(w, q.reply.value.record)
  }

  /** Every fence this call was given was the counter's at the time. */
  predicate FencesReached(w: System) {
    forall i :: 0 <= i < |w.requests| && w.requests[i].reply.Some? && w.requests[i].reply.value.Acquired? ==>
      w.requests[i].reply.value.fence <= w.server.counter
  }

  ghost predicate Sound(w: System) {
    && Inv(w.server) && FencesReached(w)
    && AllOwn(w) && Attempts(w) && Found(w)
    && (w.server.lease.Some? && w.server.lease.value.record.owner == w.owner ==>
          SomeWrote(w, w.server.lease.value.record))
    && (w.progress.Returned? ==> w.progress.record.owner == w.owner && SomeWrote(w, w.progress.record))
  }

  /** A call about to begin; no lease carries its fresh owner token. */
  predicate Start(w: System) {
    && Inv(w.server)
    && w.requests == [] && w.progress == Ready(false)
    && (w.server.lease.Some? ==> w.server.lease.value.record.owner != w.owner)
  }

  /** Only an acquire by its owner puts a new record in the lease. */
  lemma LeaseOrigin(s: Server, c: Command, now: int)
    ensures var (t, reply) := Execute(s, c, now);
      && (t.lease.Some? ==>
            (s.lease.Some? && t.lease.value.record == s.lease.value.record)
            || (c.Acquire? && t.lease.value.record == Record(c.owner, t.lease.value.record.fence)
                && reply == Acquired(t.lease.value.record.fence)))
      && (reply.Present? ==> s.lease.Some? && reply.record == s.lease.value.record)
      && (reply.Present? ==> c == Reconcile)
      && (reply.Acquired? ==> c.Acquire? && reply.fence <= t.counter)
      && (Inv(s) ==> Inv(t)) && s.counter <= t.counter
  {
  }

  lemma StillWrote(w: System, t: System, r: Record)
    requires SomeWrote(w, r) && |w.requests| <= |t.requests|
    requires forall i :: 0 <= i < |w.requests| ==> w.requests[i].reply.Some? ==> t.requests[i] == w.requests[i]
    ensures SomeWrote(t, r)
  {
    var i :| 0 <= i < |w.requests| && Wrote(w.requests[i], r);
    assert Wrote(t.requests[i], r);
  }

  lemma StillFound(w: System, t: System)
    requires Found(w) && t.owner == w.owner && |w.requests| <= |t.requests|
    requires forall i :: 0 <= i < |w.requests| ==> w.requests[i].reply.Some? ==> t.requests[i] == w.requests[i]
    requires forall i :: 0 <= i < |w.requests| ==> w.requests[i].reply.None? ==> FoundBy(t, t.requests[i])
    requires forall i :: |w.requests| <= i < |t.requests| ==> t.requests[i].reply.None?
    ensures Found(t)
  {
    hide SomeWrote;
    forall i | 0 <= i < |t.requests| ensures FoundBy(t, t.requests[i]) {
      if i < |w.requests| && w.requests[i].reply.Some? {
        assert FoundBy(w, w.requests[i]);
        if w.requests[i].reply.value.Present? && w.requests[i].reply.value.record.owner == w.owner {
          StillWrote(w, t, w.requests[i].reply.value.record);
        }
      }
    }
  }

  lemma ExecuteKeeps(w: System, r: nat, delay: nat)
    requires Sound(w)
    ensures Sound(Apply(w, ExecuteRequest(r, delay)))
  {
    hide Execute, SomeWrote;
    if r < |w.requests| && w.requests[r].reply.None? {
      var t := Apply(w, ExecuteRequest(r, delay));
      var q := w.requests[r];
      assert Own(q, w.owner);
      LeaseOrigin(w.server, q.command, w.now + delay);
      forall x | SomeWrote(w, x) ensures SomeWrote(t, x) {
        StillWrote(w, t, x);
      }
      var done := t.requests[r];
      if done.reply.value.Acquired? { WroteAt(t, r); }
      assert FoundBy(t, done);
      StillFound(w, t);
    }
  }

  lemma WroteAt(w: System, r: nat)
    requires r < |w.requests| && w.requests[r].command.Acquire?
    requires w.requests[r].reply.Some? && w.requests[r].reply.value.Acquired?
    ensures SomeWrote(w, Record(w.requests[r].command.owner, w.requests[r].reply.value.fence))
  {
    assert Wrote(w.requests[r], Record(w.requests[r].command.owner, w.requests[r].reply.value.fence));
  }

  lemma SendKeeps(w: System, command: Command, attempt: bool)
    requires Sound(w) && Own(Request(command, None), w.owner)
    requires if attempt then w.progress.Ready? && command.Acquire? else w.progress.Attempting? && command == Reconcile
    ensures Sound(Send(w, command, attempt))
  {
    hide SomeWrote;
    var t := Send(w, command, attempt);
    forall x | SomeWrote(w, x) ensures SomeWrote(t, x) {
      StillWrote(w, t, x);
    }
    StillFound(w, t);
  }

  lemma ProgressKeeps(w: System, p: Progress)
    requires Sound(w) && Attempts(w.(progress := p))
    requires p.Returned? ==> p.record.owner == w.owner && SomeWrote(w, p.record)
    ensures Sound(w.(progress := p))
  {
    hide SomeWrote, Attempts;
    var t := w.(progress := p);
    forall x | SomeWrote(w, x) ensures SomeWrote(t, x) {
      StillWrote(w, t, x);
    }
    forall i | 0 <= i < |t.requests| ensures FoundBy(t, t.requests[i]) {
      assert FoundBy(w, w.requests[i]);
    }
  }

  lemma OtherKeeps(w: System, command: Command, delay: nat)
    requires Sound(w) && Foreign(command, w.owner)
    ensures Sound(Apply(w, OtherClient(command, delay)))
  {
    hide SomeWrote, Execute;
    var t := Apply(w, OtherClient(command, delay));
    LeaseOrigin(w.server, command, w.now + delay);
    forall x | SomeWrote(w, x) ensures SomeWrote(t, x) {
      StillWrote(w, t, x);
    }
    forall i | 0 <= i < |t.requests| ensures FoundBy(t, t.requests[i]) {
      assert FoundBy(w, w.requests[i]);
    }
  }

  lemma DeliverKeeps(w: System)
    requires Sound(w)
    ensures Sound(Apply(w, Deliver))
  {
    hide SomeWrote;
    if Awaited(w).Some? && Awaited(w).value.reply.Some? {
      var r := |w.requests| - 1;
      assert Own(w.requests[r], w.owner) && FoundBy(w, w.requests[r]);
      if w.progress.Attempting? && w.requests[r].reply.value.Acquired? { WroteAt(w, r); }
      ProgressKeeps(w, Apply(w, Deliver).progress);
    }
  }

  lemma {:induction false} ApplyKeeps(w: System, e: Event)
    requires Sound(w)
    ensures Sound(Apply(w, e))
  {
    hide SomeWrote, Execute;
    match e
    case Attempt(ttl) => if w.progress.Ready? { SendKeeps(w, Acquire(w.owner, ttl), true); }
    case DeadlinePassed => if w.progress == Ready(true) { ProgressKeeps(w, ReturnedNone); }
    case ExecuteRequest(r, delay) => ExecuteKeeps(w, r, delay);
    case Deliver => DeliverKeeps(w);
    case Lose(uncertain) =>
      if w.progress.Attempting? && uncertain { SendKeeps(w, Reconcile, false); }
      else if w.progress.Attempting? || w.progress.Reconciling? { ProgressKeeps(w, Failed); }
    case OtherClient(command, delay) => if Foreign(command, w.owner) { OtherKeeps(w, command, delay); }
  }

  function Run(w: System, events: seq<Event>): System {
    if events == [] then w else Apply(Run(w, events[..|events| - 1]), events[|events| - 1])
  }

  lemma {:induction false} RunSound(w: System, events: seq<Event>)
    requires Start(w)
    ensures Sound(Run(w, events))
  {
    hide Apply, Sound;
    if events == [] {
      assert Sound(w) by { StartSound(w); }
    } else {
      RunSound(w, events[..|events| - 1]);
      ApplyKeeps(Run(w, events[..|events| - 1]), events[|events| - 1]);
    }
  }

  lemma StartSound(w: System)
    requires Start(w)
    ensures Sound(w)
  {
  }

  /** A call writes one record at most, however its scripts are delayed. */
  lemma WritesOnce(w: System, events: seq<Event>, r: Record, q: Record)
    requires Start(w) && SomeWrote(Run(w, events), r) && SomeWrote(Run(w, events), q)
    ensures r == q
  {
    hide Run, Sound, SomeWrote;
    RunSound(w, events);
    var i := OneAttempt(Run(w, events), r);
    var j := OneAttempt(Run(w, events), q);
  }

  /** The one request that acquired: every other attempt was contended. */
  lemma OneAttempt(t: System, r: Record) returns (i: nat)
    requires Sound(t) && SomeWrote(t, r)
    ensures i < |t.requests| && Wrote(t.requests[i], r) && r.owner == t.owner
    ensures t.progress.Attempting? || t.progress.Reconciling? || t.progress.Returned? || t.progress.Failed?
    ensures t.progress.Attempting? ==> i == |t.requests| - 1
    ensures t.progress.Reconciling? ==> i == |t.requests| - 2
    ensures i == |t.requests| - 1 || (i == |t.requests| - 2 && !t.requests[|t.requests| - 1].command.Acquire?)
  {
    hide Found, SomeWrote;
    assert AllOwn(t) && Attempts(t);
    i := WroteIndex(t, r);
    assert Own(t.requests[i], t.owner);
  }

  lemma WroteIndex(t: System, r: Record) returns (i: nat)
    requires SomeWrote(t, r)
    ensures i < |t.requests| && Wrote(t.requests[i], r)
  {
    i :| 0 <= i < |t.requests| && Wrote(t.requests[i], r);
  }

  /** A returned handle, whether from an acquired reply or found again after an
      uncertain one, holds exactly the one record this call wrote. */
  lemma ReturnedIsWritten(w: System, events: seq<Event>)
    requires Start(w) && Run(w, events).progress.Returned?
    ensures var t := Run(w, events);
      && t.progress.record.owner == t.owner
      && SomeWrote(t, t.progress.record)
      && forall q :: SomeWrote(t, q) ==> q == t.progress.record
  {
    hide Run, SomeWrote;
    RunSound(w, events);
    var t := Run(w, events);
    forall q | SomeWrote(t, q) ensures q == t.progress.record {
      WritesOnce(w, events, q, t.progress.record);
    }
  }

  /** A call that returned no lease never writes one, not even by a late script. */
  lemma NoneWritesNothing(w: System, events: seq<Event>, r: Record)
    requires Start(w) && Run(w, events).progress.ReturnedNone?
    ensures !SomeWrote(Run(w, events), r)
    ensures var s := Run(w, events).server; s.lease.Some? ==> s.lease.value.record.owner != Run(w, events).owner
  {
    hide Run, Found;
    RunSound(w, events);
    var t := Run(w, events);
    assert Attempts(t) && AllOwn(t);
  }

  /** What the answer to its last request decides, in every run: the call returns a
      record exactly if its attempt acquired it or its reconciliation found its own
      owner in the lease; it tries again exactly if the attempt was contended, it
      reconciles exactly if the attempt's outcome is uncertain, and else it fails. */
  lemma AnsweredIff(w: System, events: seq<Event>, uncertain: bool)
    requires Start(w)
    requires Run(w, events).progress.Attempting? || Run(w, events).progress.Reconciling?
    ensures Run(w, events).progress.request < |Run(w, events).requests|
    ensures var t := Run(w, events);
      var attempting := t.progress.Attempting?;
      var q := t.requests[t.progress.request];
      var u, lost := Apply(t, Deliver), Apply(t, Lose(uncertain));
      && (q.reply.None? ==> u == t)
      && (q.reply.Some? ==>
            && u == t.(progress := u.progress)
            && (forall r :: u.progress == Returned(r) <==>
                  && r.owner == t.owner
                  && (if attempting then q.reply.value == Acquired(r.fence) else q.reply.value == Present(r)))
            && (u.progress == Ready(true) <==> attempting && q.reply.value == Contended)
            && (u.progress.Returned? || u.progress == Ready(true) || u.progress == Failed))
      && (if attempting && uncertain
          then lost == t.(requests := t.requests + [Request(Reconcile, None)], progress := Reconciling(|t.requests|))
          else lost == t.(progress := Failed))
  {
    hide Run, Found;
    RunSound(w, events);
    assert Attempts(Run(w, events));
  }

  /** A call never gives up before its first attempt, and sends nothing once it has
      ended; the server moves only by executing a request once, or another client's. */
  lemma SendsIff(w: System, events: seq<Event>, e: Event)
    requires Start(w)
    ensures var t := Run(w, events);
      var u := Apply(t, e);
      && (|u.requests| > |t.requests| <==>
            (e.Attempt? && t.progress.Ready?) || (e == Lose(true) && t.progress.Attempting?))
      && (u.progress == ReturnedNone && t.progress != ReturnedNone <==>
            e == DeadlinePassed && t.progress == Ready(true))
      && (t.progress == Ready(true) ==> t.requests != [])
      && (match e
          case ExecuteRequest(r, delay) =>
            if r < |t.requests| && t.requests[r].reply.None?
            then u.now == t.now + delay && u.server == Execute(t.server, t.requests[r].command, u.now).0
            else u == t
          case OtherClient(command, delay) =>
            Foreign(command, t.owner) ==> u.now == t.now + delay && u.server == Execute(t.server, command, u.now).0
          case _ => u.server == t.server && u.now == t.now)
  {
    hide Execute, Sound;
    ReadyAttempted(w, events);
  }

  lemma {:induction false} ReadyAttempted(w: System, events: seq<Event>)
    requires Start(w)
    ensures Run(w, events).progress == Ready(true) ==> Run(w, events).requests != []
  {
    hide Execute, Sound;
    if events != [] { ReadyAttempted(w, events[..|events| - 1]); }
  }

  /** A returned record starts its handle as the handle's theorems need it: it was
      handed out by the server, and nothing has been sent for it yet. */
  lemma ReturnedStartsHandle(w: System, events: seq<Event>)
    requires Start(w) && Run(w, events).progress.Returned?
    ensures var t := Run(w, events);
      LeaderRuns.Start(LeaderRuns.System(
        t.progress.record, t.server, t.now, LeaderHandle.Handle(LeaderHandle.ACQUIRED, None), [], []))
  {
    hide Run, Found, Attempts, AllOwn, Inv;
    RunSound(w, events);
    var t := Run(w, events);
    var i := WroteIndex(t, t.progress.record);
    assert FencesReached(t);
  }
}
