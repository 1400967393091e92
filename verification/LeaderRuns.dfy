/** One handle against the server: any number of its calls in flight at once, each
    script executed when and if it happens to be, replies lost, and any other
    clients' scripts in between. */
module LeaderRuns {
  import opened Wrappers
  import Decimal
  import opened LeaseRecord
  import opened LeaderServer
  import opened LeaderHandle

  /** A script this handle sent, and its reply once it has been executed. */
  datatype Request = Request(command: Command, reply: Option<Reply>)

  datatype Stage = Renewing | Probing | Releasing(scoped: bool) | Reconciling(scoped: bool) | Repeating(scoped: bool)

  /** A call waits for a request, or has ended. */
  datatype Call = Waiting(stage: Stage, request: nat) | Ended(stage: Stage, request: nat, decision: Decision)

  datatype System = System(
    record: Record,
    server: Server,
    now: int,
    handle: Handle,
    requests: seq<Request>,
    calls: seq<Call>)

  /** `serial` numbers the exception a section may create, `minimum` is the time a
      release asks the lease to stay. */
  datatype Event =
    | StartRenew(ttl: nat)
    | StartProbe
    | StartRelease(scoped: bool, minimum: nat)
    | ExecuteRequest(request: nat, delay: nat)
    | Deliver(call: nat, serial: nat, minimum: nat)
    | Lose(call: nat, timedOut: bool, serial: nat)
    | EnterScope
    | StopTimesOut(serial: nat)
    | WorkerCrashes(serial: nat)
    | OtherClient(command: Command, delay: nat)

  function Send(w: System, command: Command, stage: Stage): System {
    w.(requests := w.requests + [Request(command, None)], calls := w.calls + [Waiting(stage, |w.requests|)])
  }

  /** The section that ends the stage a call is in. */
  function Section(w: System, stage: Stage, answer: Answer, serial: nat): (Handle, Decision)
    requires Coherent(w.handle)
  {
    match stage
    case Renewing => LeaderHandle.Settle(w.handle, answer, Renewed, serial)
    case Probing => LeaderHandle.Settle(w.handle, answer, Held, serial)
    case Releasing(scoped) => ReleaseEnd(w.handle, answer, scoped, serial)
    case Reconciling(scoped) => ReconcileEnd(w.handle, w.record.owner, answer, scoped, serial)
    case Repeating(scoped) => RepeatEnd(w.handle, answer, scoped, serial)
  }

  /** A call receives its answer; a release goes on to reconcile, and that to the
      repeated release. */
  function Receive(w: System, c: nat, answer: Answer, serial: nat, minimum: nat): System
    requires Coherent(w.handle) && c < |w.calls| && w.calls[c].Waiting?
  {
    var call := w.calls[c];
    var (h, d) := Section(w, call.stage, answer, serial);
    if d == Proceed && call.stage.Releasing? then
      w.(handle := h, requests := w.requests + [Request(Reconcile, None)],
         calls := w.calls[c := Waiting(Reconciling(call.stage.scoped), |w.requests|)])
    else if d == Proceed && call.stage.Reconciling? then
      w.(handle := h, requests := w.requests + [Request(Release(w.record, minimum), None)],
         calls := w.calls[c := Waiting(Repeating(call.stage.scoped), |w.requests|)])
    else
      w.(handle := h, calls := w.calls[c := Ended(call.stage, call.request, d)])
  }

  predicate Wellformed(w: System) {
    && Coherent(w.handle)
    && forall c :: 0 <= c < |w.calls| ==> w.calls[c].request < |w.requests|
  }

  function Apply(w: System, e: Event): System
    requires Wellformed(w)
  {
    match e
    case StartRenew(ttl) =>
      if Gate(w.handle) == Proceed then Send(w, Renew(w.record, ttl), Renewing) else w
    case StartProbe =>
      if Gate(w.handle) == Proceed then Send(w, Probe(w.record), Probing) else w
    case StartRelease(scoped, minimum) =>
      if ReleaseGate(w.handle, scoped) == Proceed then Send(w, Release(w.record, minimum), Releasing(scoped)) else w
    case ExecuteRequest(r, delay) =>
      if r < |w.requests| && w.requests[r].reply.None? then
        var (s, reply) := Execute(w.server, w.requests[r].command, w.now + delay);
        w.(server := s, now := w.now + delay, requests := w.requests[r := w.requests[r].(reply := Some(reply))])
      else w
    case Deliver(c, serial, minimum) =>
      if c < |w.calls| && w.calls[c].Waiting? && w.requests[w.calls[c].request].reply.Some? then
        Receive(w, c, Replied(w.requests[w.calls[c].request].reply.value), serial, minimum)
      else w
    case Lose(c, timedOut, serial) =>
      if c < |w.calls| && w.calls[c].Waiting? then
        Receive(w, c, if timedOut then TimedOut else Broken, serial, 0)
      else w
    case EnterScope => w.(handle := Enter(w.handle).0)
    case StopTimesOut(serial) => w.(handle := StopTimeout(w.handle, serial).0)
    case WorkerCrashes(serial) => w.(handle := WorkerCrash(w.handle, serial))
    case OtherClient(command, delay) =>
      w.(server := Execute(w.server, command, w.now + delay).0, now := w.now + delay)
  }

  // ----- what every run keeps -----

  /** The command a stage waits for. */
  predicate Fits(stage: Stage, command: Command, r: Record) {
    match stage
    case Renewing => command.Renew? && command.record == r
    case Probing => command == Probe(r)
    case Reconciling(_) => command == Reconcile
    case Releasing(_) => command.Release? && command.record == r
    case Repeating(_) => command.Release? && command.record == r
  }

  predicate CallsFit(w: System) {
    forall c :: 0 <= c < |w.calls| ==>
      w.calls[c].request < |w.requests| && Fits(w.calls[c].stage, w.requests[w.calls[c].request].command, w.record)
  }

  /** A reply that denies the record was true when it was given. */
  predicate Denies(q: Request, r: Record) {
    q.reply.Some? && (q.reply.value == NotHeld || (q.reply.value.Present? && q.reply.value.record.owner != r.owner))
  }

  /** Only the commands the handle sends, and the answers the server gives them. */
  predicate Answered(q: Request, r: Record) {
    && (q.command == Reconcile || Carries(q.command, r))
    && (q.reply.Some? ==> q.reply.value != Corrupt && !q.reply.value.Acquired?)
  }

  predicate RequestsTrue(w: System) {
    forall i :: 0 <= i < |w.requests| ==>
      Answered(w.requests[i], w.record) && (Denies(w.requests[i], w.record) ==> Gone(w.server, w.now, w.record))
  }

  predicate Succeeded(q: Request, r: Record) {
    && q.command.Release? && q.command.record == r
    && (q.reply == Some(Deleted) || q.reply == Some(MinimumApplied))
  }

  ghost predicate SomeReleased(w: System) {
    exists i :: 0 <= i < |w.requests| && Succeeded(w.requests[i], w.record)
  }

  /** What an ended call reported. */
  ghost predicate Truthful(w: System, call: Call) {
    call.Ended? && call.request < |w.requests| ==>
      var reply := w.requests[call.request].reply;
      match call.decision
      case Confirmed =>
        (match call.stage
         case Renewing => reply == Some(Renewed)
         case Probing => reply == Some(Held)
         case _ => SomeReleased(w))
      case Denied => Gone(w.server, w.now, w.record) || SomeReleased(w)
      case RaisedLeaseLost => Gone(w.server, w.now, w.record)
      case _ => true
  }

  ghost predicate AllTruthful(w: System) {
    forall c :: 0 <= c < |w.calls| ==> Truthful(w, w.calls[c])
  }

  ghost predicate Sound(w: System) {
    && Wellformed(w) && Inv(w.server) && w.record.fence <= w.server.counter
    && CallsFit(w) && RequestsTrue(w) && AllTruthful(w)
    && (w.handle.status == LOST ==> Gone(w.server, w.now, w.record))
    && (w.handle.status == RELEASED ==> SomeReleased(w))
  }

  /** A handle just made for a record the server handed out. */
  predicate Start(w: System) {
    && w.handle == Handle(ACQUIRED, None) && w.requests == [] && w.calls == []
    && Inv(w.server) && w.record.fence <= w.server.counter
  }

  /** Moving the server on keeps what is gone, gone. */
  lemma ServerMoves(w: System, command: Command, delay: nat)
    requires Sound(w)
    ensures var t := w.(server := Execute(w.server, command, w.now + delay).0, now := w.now + delay); Sound(t)
  {
    hide Execute, Gone, Answered, Denies, Succeeded, Fits, Coherent;
    var t := w.(server := Execute(w.server, command, w.now + delay).0, now := w.now + delay);
    ExecuteInv(w.server, command, t.now);
    if Gone(w.server, w.now, w.record) { GoneStep(w.server, w.now, t.now, command, w.record); }
    assert SomeReleased(w) ==> SomeReleased(t) by {
      if SomeReleased(w) {
        var i :| 0 <= i < |w.requests| && Succeeded(w.requests[i], w.record);
        assert Succeeded(t.requests[i], t.record);
      }
    }
    forall c | 0 <= c < |t.calls| ensures Truthful(t, t.calls[c]) {
      assert Truthful(w, w.calls[c]);
    }
  }

  /** The reply is what the server's state then said of the record. */
  lemma ReplyTrue(s: Server, q: Command, now: int, r: Record)
    requires Inv(s) && r.fence <= s.counter && (q == Reconcile || Carries(q, r))
    ensures var (t, reply) := Execute(s, q, now);
      var done := Request(q, Some(reply));
      Answered(done, r) && (Denies(done, r) ==> Gone(t, now, r))
  {
  }

  lemma RecordReply(w: System, r: nat, reply: Reply)
    requires Sound(w) && r < |w.requests| && w.requests[r].reply.None?
    requires var q := Request(w.requests[r].command, Some(reply));
      Answered(q, w.record) && (Denies(q, w.record) ==> Gone(w.server, w.now, w.record))
    ensures Sound(w.(requests := w.requests[r := w.requests[r].(reply := Some(reply))]))
  {
    hide Gone, Answered, Denies, Fits, Coherent, Inv;
    var t := w.(requests := w.requests[r := w.requests[r].(reply := Some(reply))]);
    assert SomeReleased(w) ==> SomeReleased(t) by {
      if SomeReleased(w) {
        var i :| 0 <= i < |w.requests| && Succeeded(w.requests[i], w.record);
        assert Succeeded(t.requests[i], t.record);
      }
    }
    forall c | 0 <= c < |t.calls| ensures Truthful(t, t.calls[c]) {
      assert Truthful(w, w.calls[c]);
    }
  }

  lemma SendKeeps(w: System, command: Command, stage: Stage)
    requires Sound(w) && Fits(stage, command, w.record)
    ensures Sound(Send(w, command, stage))
  {
    hide Gone, Coherent, Inv;
    var t := Send(w, command, stage);
    assert SomeReleased(w) ==> SomeReleased(t) by {
      if SomeReleased(w) {
        var i :| 0 <= i < |w.requests| && Succeeded(w.requests[i], w.record);
        assert Succeeded(t.requests[i], t.record);
      }
    }
    forall c | 0 <= c < |t.calls| ensures Truthful(t, t.calls[c]) {
      if c < |w.calls| { assert Truthful(w, w.calls[c]); }
    }
  }

  /** Every section moves the handle only where the evidence allows. */
  lemma SectionTrue(w: System, c: nat, answer: Answer, serial: nat)
    requires Sound(w) && c < |w.calls| && w.calls[c].Waiting?
    requires answer.Replied? ==> w.requests[w.calls[c].request].reply == Some(answer.reply)
    ensures var (h, d) := Section(w, w.calls[c].stage, answer, serial);
      && Coherent(h) && Allowed(w.handle, h)
      && (h.status == LOST ==> Gone(w.server, w.now, w.record))
      && (h.status == RELEASED ==> SomeReleased(w))
      && Truthful(w, Ended(w.calls[c].stage, w.calls[c].request, d))
  {
    hide Gone, Inv;
    var q := w.requests[w.calls[c].request];
    assert Answered(q, w.record) && (Denies(q, w.record) ==> Gone(w.server, w.now, w.record));
    assert Succeeded(q, w.record) ==> SomeReleased(w);
  }

  lemma SettleHandle(w: System, h: Handle)
    requires Sound(w) && Coherent(h)
    requires (h.status == LOST ==> Gone(w.server, w.now, w.record)) && (h.status == RELEASED ==> SomeReleased(w))
    ensures Sound(w.(handle := h))
  {
    hide Gone, Inv, Coherent, Answered, Denies, Fits, Succeeded;
    var t := w.(handle := h);
    assert SomeReleased(w) ==> SomeReleased(t) by {
      if SomeReleased(w) {
        var i :| 0 <= i < |w.requests| && Succeeded(w.requests[i], w.record);
        assert Succeeded(t.requests[i], t.record);
      }
    }
    forall c | 0 <= c < |t.calls| ensures Truthful(t, t.calls[c]) {
      assert Truthful(w, w.calls[c]);
    }
  }

  lemma EndCall(w: System, c: nat, d: Decision)
    requires Sound(w) && c < |w.calls| && w.calls[c].Waiting?
    requires Truthful(w, Ended(w.calls[c].stage, w.calls[c].request, d))
    ensures Sound(w.(calls := w.calls[c := Ended(w.calls[c].stage, w.calls[c].request, d)]))
  {
    hide Gone, Inv, Coherent, Answered, Denies, Fits, Succeeded;
    var t := w.(calls := w.calls[c := Ended(w.calls[c].stage, w.calls[c].request, d)]);
    assert SomeReleased(w) ==> SomeReleased(t) by {
      if SomeReleased(w) {
        var i :| 0 <= i < |w.requests| && Succeeded(w.requests[i], w.record);
        assert Succeeded(t.requests[i], t.record);
      }
    }
    forall k | 0 <= k < |t.calls| ensures Truthful(t, t.calls[k]) {
      if k != c { assert Truthful(w, w.calls[k]); }
    }
  }

  /** A release that goes on sends its next request in the place of the last. */
  lemma NextStage(w: System, c: nat, command: Command, stage: Stage)
    requires Sound(w) && c < |w.calls| && w.calls[c].Waiting? && Fits(stage, command, w.record)
    ensures Sound(w.(requests := w.requests + [Request(command, None)],
      calls := w.calls[c := Waiting(stage, |w.requests|)]))
  {
    hide Gone, Coherent, Inv;
    var t := w.(requests := w.requests + [Request(command, None)], calls := w.calls[c := Waiting(stage, |w.requests|)]);
    assert SomeReleased(w) ==> SomeReleased(t) by {
      if SomeReleased(w) {
        var i :| 0 <= i < |w.requests| && Succeeded(w.requests[i], w.record);
        assert Succeeded(t.requests[i], t.record);
      }
    }
    forall k | 0 <= k < |t.calls| ensures Truthful(t, t.calls[k]) {
      if k != c { assert Truthful(w, w.calls[k]); }
    }
  }

  lemma ReceiveKeeps(w: System, c: nat, answer: Answer, serial: nat, minimum: nat)
    requires Sound(w) && c < |w.calls| && w.calls[c].Waiting?
    requires answer.Replied? ==> w.requests[w.calls[c].request].reply == Some(answer.reply)
    ensures Sound(Receive(w, c, answer, serial, minimum))
    ensures Allowed(w.handle, Receive(w, c, answer, serial, minimum).handle)
  {
    hide Section, Coherent, Inv, Gone, CallsFit, RequestsTrue, AllTruthful, SomeReleased, Truthful;
    SectionTrue(w, c, answer, serial);
    var call := w.calls[c];
    var (h, d) := Section(w, call.stage, answer, serial);
    SettleHandle(w, h);
    var t := w.(handle := h);
    if d == Proceed && call.stage.Releasing? {
      NextStage(t, c, Reconcile, Reconciling(call.stage.scoped));
    } else if d == Proceed && call.stage.Reconciling? {
      NextStage(t, c, Release(w.record, minimum), Repeating(call.stage.scoped));
    } else {
      TruthfulHandle(w, h, Ended(call.stage, call.request, d));
      EndCall(t, c, d);
    }
  }

  lemma TruthfulHandle(w: System, h: Handle, call: Call)
    requires Truthful(w, call)
    ensures Truthful(w.(handle := h), call)
  {
    hide Gone, Succeeded;
    var t := w.(handle := h);
    if SomeReleased(w) {
      var i :| 0 <= i < |w.requests| && Succeeded(w.requests[i], w.record);
      assert Succeeded(t.requests[i], t.record);
    }
  }

  lemma ExecuteKeeps(w: System, r: nat, delay: nat)
    requires Sound(w)
    ensures Sound(Apply(w, ExecuteRequest(r, delay)))
  {
    hide Execute, Coherent, Inv, Gone, CallsFit, AllTruthful, SomeReleased, Truthful, Answered, Denies;
    if r < |w.requests| && w.requests[r].reply.None? {
      var q := w.requests[r];
      var (s, reply) := Execute(w.server, q.command, w.now + delay);
      assert Answered(q, w.record);
      assert q.command == Reconcile || Carries(q.command, w.record) by { OnlyOwn(q, w.record); }
      ReplyTrue(w.server, q.command, w.now + delay, w.record);
      ServerMoves(w, q.command, delay);
      RecordReply(w.(server := s, now := w.now + delay), r, reply);
    }
  }

  lemma OnlyOwn(q: Request, r: Record)
    requires Answered(q, r)
    ensures q.command == Reconcile || Carries(q.command, r)
  {
  }

  lemma {:induction false} ApplyKeeps(w: System, e: Event)
    requires Sound(w)
    ensures Sound(Apply(w, e)) && Allowed(w.handle, Apply(w, e).handle)
  {
    hide Execute, Inv, Gone, CallsFit, RequestsTrue, AllTruthful, SomeReleased, Truthful, Receive, Send;
    match e
    case StartRenew(ttl) => SendKeeps(w, Renew(w.record, ttl), Renewing); SameHandle(w, Renew(w.record, ttl), Renewing);
    case StartProbe => SendKeeps(w, Probe(w.record), Probing); SameHandle(w, Probe(w.record), Probing);
    case StartRelease(scoped, minimum) =>
      SendKeeps(w, Release(w.record, minimum), Releasing(scoped));
      SameHandle(w, Release(w.record, minimum), Releasing(scoped));
    case ExecuteRequest(r, delay) => ExecuteKeeps(w, r, delay);
    case Deliver(c, serial, minimum) =>
      if c < |w.calls| && w.calls[c].Waiting? && w.requests[w.calls[c].request].reply.Some? {
        ReceiveKeeps(w, c, Replied(w.requests[w.calls[c].request].reply.value), serial, minimum);
      }
    case Lose(c, timedOut, serial) =>
      if c < |w.calls| && w.calls[c].Waiting? { ReceiveKeeps(w, c, if timedOut then TimedOut else Broken, serial, 0); }
    case EnterScope => SettleHandle(w, Enter(w.handle).0);
    case StopTimesOut(serial) => SettleHandle(w, StopTimeout(w.handle, serial).0);
    case WorkerCrashes(serial) => SettleHandle(w, WorkerCrash(w.handle, serial));
    case OtherClient(command, delay) => ServerMoves(w, command, delay);
  }

  lemma SameHandle(w: System, command: Command, stage: Stage)
    ensures Send(w, command, stage).handle == w.handle
  {
  }

  // ----- whole runs -----

  ghost function Run(w: System, events: seq<Event>): (t: System)
    requires Sound(w)
    ensures Sound(t)
  {
    if events == [] then w
    else
      ApplyKeeps(Run(w, events[..|events| - 1]), events[|events| - 1]);
      Apply(Run(w, events[..|events| - 1]), events[|events| - 1])
  }

  /** Over a whole run the handle moves only as one section may: in particular an
      unknown state and its failure stay as they are, and a lost or released
      handle never becomes the other or usable again. */
  lemma {:induction false} MovesOnlyForward(w: System, events: seq<Event>, i: nat)
    requires Sound(w) && i <= |events|
    ensures Allowed(Run(w, events[..i]).handle, Run(w, events).handle)
  {
    hide Apply, Sound;
    if i == |events| {
      assert events[..i] == events;
    } else {
      var init := events[..|events| - 1];
      assert init[..i] == events[..i];
      MovesOnlyForward(w, init, i);
      ApplyKeeps(Run(w, init), events[|events| - 1]);
    }
  }

  lemma StartSound(w: System)
    requires Start(w)
    ensures Sound(w)
  {
  }

  lemma GoneKept(w: System, e: Event)
    requires Sound(w) && Gone(w.server, w.now, w.record)
    ensures var t := Apply(w, e); t.record == w.record && Gone(t.server, t.now, t.record)
  {
    hide Execute, Gone, Section, CallsFit, RequestsTrue, AllTruthful;
    match e
    case ExecuteRequest(r, delay) =>
      if r < |w.requests| { GoneStep(w.server, w.now, w.now + delay, w.requests[r].command, w.record); }
    case OtherClient(command, delay) => GoneStep(w.server, w.now, w.now + delay, command, w.record);
    case _ =>
  }

  /** Once the handle is lost, the server never again holds its record. */
  lemma {:induction false} LostMeansGone(w: System, events: seq<Event>, i: nat)
    requires Sound(w) && i <= |events| && Run(w, events[..i]).handle.status == LOST
    ensures var t := Run(w, events); Gone(t.server, t.now, t.record)
  {
    hide Apply, Gone, Inv, CallsFit, RequestsTrue, AllTruthful;
    if i == |events| {
      assert events[..i] == events;
    } else {
      var init := events[..|events| - 1];
      assert init[..i] == events[..i];
      LostMeansGone(w, init, i);
      GoneKept(Run(w, init), events[|events| - 1]);
    }
  }

  /** A released handle's own release script was executed and succeeded. */
  lemma ReleasedMeansReleased(w: System, events: seq<Event>)
    requires Start(w) && Sound(w) && Run(w, events).handle.status == RELEASED
    ensures var t := Run(w, events);
      exists i :: 0 <= i < |t.requests| && Succeeded(t.requests[i], t.record)
  {
    hide Inv, Gone, CallsFit, RequestsTrue, AllTruthful, Succeeded;
    assert Sound(Run(w, events));
  }

  /** What ended calls told their callers is true: a confirmed renew or probe had
      its script succeed, and a denial or a lost lease means the server never again
      holds the record, or the handle had released it. */
  lemma AnswersTrue(w: System, events: seq<Event>, c: nat)
    requires Sound(w) && c < |Run(w, events).calls| && Run(w, events).calls[c].Ended?
    ensures var t := Run(w, events);
      var call := t.calls[c];
      && call.request < |t.requests|
      && (call.decision == Confirmed && call.stage == Renewing ==> t.requests[call.request].reply == Some(Renewed))
      && (call.decision == Confirmed && call.stage == Probing ==> t.requests[call.request].reply == Some(Held))
      && (call.decision == Confirmed && call.stage != Renewing && call.stage != Probing ==> SomeReleased(t))
      && (call.decision == Denied ==> Gone(t.server, t.now, t.record) || SomeReleased(t))
      && (call.decision == RaisedLeaseLost ==> Gone(t.server, t.now, t.record))
  {
    hide Inv, Gone, RequestsTrue, Run, SomeReleased;
    var t := Run(w, events);
    assert Truthful(t, t.calls[c]);
  }

  lemma RunStep(w: System, events: seq<Event>, k: nat)
    requires Sound(w) && k < |events|
    ensures Run(w, events[..k + 1]) == Apply(Run(w, events[..k]), events[k])
  {
    assert events[..k + 1][..k] == events[..k];
  }

  lemma RunNothing(w: System)
    requires Sound(w)
    ensures Run(w, []) == w
  {
  }

  // ----- what each answer decides -----

  predicate InUse(h: Handle) {
    h.status == ACQUIRED || h.status == ENTERED
  }

  /** The call has ended with this decision. */
  predicate EndsWith(t: System, u: System, c: nat, d: Decision)
    requires c < |t.calls| == |u.calls|
  {
    u.calls[c] == Ended(t.calls[c].stage, t.calls[c].request, d)
  }

  /** In every run, a renew or probe is confirmed exactly if its handle is still in use
      and the script found the record held; it loses the handle exactly if it was not
      held, and nothing else but a failure changes it. */
  lemma OperationDecides(w: System, events: seq<Event>, c: nat, answer: Answer, serial: nat, minimum: nat)
    requires Sound(w)
    requires var t := Run(w, events);
      c < |t.calls| && t.calls[c].Waiting? && (t.calls[c].stage == Renewing || t.calls[c].stage == Probing)
    ensures var t := Run(w, events);
      var u := Receive(t, c, answer, serial, minimum);
      var good := Replied(if t.calls[c].stage == Renewing then Renewed else Held);
      && |u.calls| == |t.calls| && u.requests == t.requests && u.server == t.server
      && (EndsWith(t, u, c, Confirmed) <==> InUse(t.handle) && answer == good)
      && (EndsWith(t, u, c, Denied) <==>
            || t.handle.status == LOST || t.handle.status == RELEASED
            || (InUse(t.handle) && answer == Replied(NotHeld)))
      && (!InUse(t.handle) || answer == good ==> u.handle == t.handle)
      && (t.handle.status == UNKNOWN ==> EndsWith(t, u, c, Raised(t.handle.failure.value)))
      && (InUse(t.handle) && answer == Replied(NotHeld) ==> u.handle == Handle(LOST, None))
      && (InUse(t.handle) && answer != good && answer != Replied(NotHeld) ==>
            u.handle == Handle(UNKNOWN, Some(BackendError(serial))) && EndsWith(t, u, c, Raised(BackendError(serial))))
  {
    hide Run, CallsFit, RequestsTrue, AllTruthful, Inv;
  }

  /** A release is done exactly if its handle is still in use and its first or repeated
      script deleted or shortened the lease; only a timed-out first script goes on to
      reconcile. */
  lemma ReleaseDecides(w: System, events: seq<Event>, c: nat, answer: Answer, serial: nat, minimum: nat)
    requires Sound(w)
    requires var t := Run(w, events);
      c < |t.calls| && t.calls[c].Waiting? && (t.calls[c].stage.Releasing? || t.calls[c].stage.Repeating?)
    ensures var t := Run(w, events);
      var u := Receive(t, c, answer, serial, minimum);
      var scoped := t.calls[c].stage.scoped;
      var again := t.calls[c].stage.Releasing? && answer == TimedOut;
      var done := answer == Replied(Deleted) || answer == Replied(MinimumApplied);
      && |u.calls| == |t.calls| && u.server == t.server
      && (u.calls[c].Waiting? <==> again)
      && (again ==> u == t.(requests := t.requests + [Request(Reconcile, None)],
                            calls := t.calls[c := Waiting(Reconciling(scoped), |t.requests|)]))
      && (EndsWith(t, u, c, Confirmed) <==>
            !again && ((InUse(t.handle) && done) || (scoped && t.handle.status == RELEASED)))
      && (EndsWith(t, u, c, if scoped then RaisedLeaseLost else RaisedRelease) <==>
            && !again
            && (|| (InUse(t.handle) && answer == Replied(NotHeld)) || t.handle.status == LOST
                || (!scoped && t.handle.status == RELEASED)))
      && (!InUse(t.handle) ==> u.handle == t.handle)
      && (t.handle.status == UNKNOWN && !again ==> EndsWith(t, u, c, Raised(t.handle.failure.value)))
      && (InUse(t.handle) && !again ==>
            u.handle ==
            if done then Handle(RELEASED, None)
            else if answer == Replied(NotHeld) then Handle(LOST, None)
            else Handle(UNKNOWN, Some(if answer == TimedOut then ReleaseError(serial) else BackendError(serial))))
  {
    hide Run, CallsFit, RequestsTrue, AllTruthful, Inv;
  }

  /** A reconciliation repeats the release exactly if the lease still has this owner;
      one without a lease leaves the outcome unknown, another's lease loses the handle. */
  lemma ReconcileDecides(w: System, events: seq<Event>, c: nat, answer: Answer, serial: nat, minimum: nat)
    requires Sound(w)
    requires var t := Run(w, events); c < |t.calls| && t.calls[c].Waiting? && t.calls[c].stage.Reconciling?
    ensures var t := Run(w, events);
      var u := Receive(t, c, answer, serial, minimum);
      var scoped := t.calls[c].stage.scoped;
      var present := answer.Replied? && answer.reply.Present?;
      var own := present && answer.reply.record.owner == t.record.owner;
      && |u.calls| == |t.calls| && u.server == t.server
      && (u.calls[c].Waiting? <==> InUse(t.handle) && own)
      && (u.calls[c].Waiting? ==>
            u == t.(requests := t.requests + [Request(Release(t.record, minimum), None)],
                    calls := t.calls[c := Waiting(Repeating(scoped), |t.requests|)]))
      && (!InUse(t.handle) ==> u.handle == t.handle)
      && (t.handle.status == UNKNOWN ==> EndsWith(t, u, c, Raised(t.handle.failure.value)))
      && (InUse(t.handle) && !own ==>
            u.handle ==
            if present then Handle(LOST, None)
            else Handle(UNKNOWN, Some(if answer == Replied(Missing) then ReleaseError(serial)
                                      else BackendError(serial))))
  {
    hide Run, CallsFit, RequestsTrue, AllTruthful, Inv;
  }

  /** A renew, probe or release is sent exactly while the handle is in use; a scope is
      entered exactly once, by a handle just acquired; a worker that does not stop or
      crashes leaves the handle unknown, with the failure it already had if any. */
  lemma OtherSectionsDecide(w: System, events: seq<Event>, e: Event)
    requires Sound(w)
    ensures var t := Run(w, events);
      var u := Apply(t, e);
      match e
      case StartRenew(ttl) => u == if InUse(t.handle) then Send(t, Renew(t.record, ttl), Renewing) else t
      case StartProbe => u == if InUse(t.handle) then Send(t, Probe(t.record), Probing) else t
      case StartRelease(scoped, minimum) =>
        u == if InUse(t.handle) then Send(t, Release(t.record, minimum), Releasing(scoped)) else t
      case EnterScope =>
        && (Enter(t.handle).1 == Proceed <==> t.handle.status == ACQUIRED)
        && (t.handle.status == UNKNOWN ==> Enter(t.handle).1 == Raised(t.handle.failure.value))
        && (t.handle.status != ACQUIRED && t.handle.status != UNKNOWN ==> Enter(t.handle).1 == RaisedLeaseLost)
        && u == if t.handle.status == ACQUIRED then t.(handle := Handle(ENTERED, None)) else t
      case StopTimesOut(serial) => FailsOnce(t, u, serial)
      case WorkerCrashes(serial) => FailsOnce(t, u, serial)
      case _ => true
  {
    hide Run, CallsFit, RequestsTrue, AllTruthful, Inv, Execute, Send;
  }

  predicate FailsOnce(t: System, u: System, serial: nat) {
    u == if t.handle.status == UNKNOWN then t else t.(handle := Handle(UNKNOWN, Some(BackendError(serial))))
  }

  // ----- what can prolong the record's lease -----

  /** The script an event has the server execute, and the time until then. */
  function Executed(w: System, e: Event): Option<(Command, nat)> {
    match e
    case ExecuteRequest(i, delay) =>
      if i < |w.requests| && w.requests[i].reply.None? then Some((w.requests[i].command, delay)) else None
    case OtherClient(command, delay) => Some((command, delay))
    case _ => None
  }

  predicate EventProlongs(w: System, e: Event, deadline: int) {
    var x := Executed(w, e);
    x.Some? && Prolongs(w.server, x.value.0, w.now + x.value.1, w.record, deadline)
  }

  lemma EventStep(w: System, e: Event, deadline: int)
    requires Sound(w) && !HeldBeyond(w.server, w.record, deadline)
    ensures HeldBeyond(Apply(w, e).server, w.record, deadline) <==> EventProlongs(w, e, deadline)
  {
    hide Execute, Prolongs, HeldBeyond, Section, Inv, CallsFit, RequestsTrue, AllTruthful;
    var x := Executed(w, e);
    if x.Some? { ProlongStep(w.server, x.value.0, w.now + x.value.1, w.record, deadline); }
  }

  lemma {:induction false} SameRecord(w: System, events: seq<Event>)
    requires Sound(w)
    ensures Run(w, events).record == w.record
  {
    hide Section, Sound, Execute;
    if events != [] { SameRecord(w, events[..|events| - 1]); }
  }

  lemma {:induction false} NotProlonged(w: System, events: seq<Event>, deadline: int)
    requires Sound(w) && !HeldBeyond(w.server, w.record, deadline)
    requires forall k :: 0 <= k < |events| ==> !EventProlongs(Run(w, events[..k]), events[k], deadline)
    ensures !HeldBeyond(Run(w, events).server, w.record, deadline)
  {
    hide HeldBeyond, EventProlongs, Sound, Apply;
    if events != [] {
      var last := |events| - 1;
      forall k | 0 <= k < last ensures !EventProlongs(Run(w, events[..last][..k]), events[..last][k], deadline) {
        assert events[..last][..k] == events[..k];
      }
      NotProlonged(w, events[..last], deadline);
      SameRecord(w, events[..last]);
      EventStep(Run(w, events[..last]), events[last], deadline);
    }
  }

  /** In a run of the handle's system its lease is ever held beyond a deadline if and
      only if some renew or release of the record, executed by then, found it held
      and asked for that much. */
  lemma ProlongedIff(w: System, events: seq<Event>, deadline: int)
    requires Sound(w) && !HeldBeyond(w.server, w.record, deadline)
    ensures (exists n :: 0 <= n <= |events| && HeldBeyond(Run(w, events[..n]).server, w.record, deadline))
       <==> (exists k :: 0 <= k < |events| && EventProlongs(Run(w, events[..k]), events[k], deadline))
  {
    hide HeldBeyond, EventProlongs, Sound, Apply, Run;
    if n :| 0 <= n <= |events| && HeldBeyond(Run(w, events[..n]).server, w.record, deadline) {
      if forall k :: 0 <= k < |events| ==> !EventProlongs(Run(w, events[..k]), events[k], deadline) {
        forall k | 0 <= k < n ensures !EventProlongs(Run(w, events[..n][..k]), events[..n][k], deadline) {
          assert events[..n][..k] == events[..k];
        }
        NotProlonged(w, events[..n], deadline);
      }
    }
    if k :| 0 <= k < |events| && EventProlongs(Run(w, events[..k]), events[k], deadline) {
      RunStep(w, events, k);
      SameRecord(w, events[..k]);
      if !HeldBeyond(Run(w, events[..k]).server, w.record, deadline) {
        EventStep(Run(w, events[..k]), events[k], deadline);
        assert HeldBeyond(Run(w, events[..k + 1]).server, w.record, deadline);
      }
    }
  }

  predicate Terminal(h: Handle) {
    h.status == LOST || h.status == RELEASED || h.status == UNKNOWN
  }

  /** No other client sends commands that carry the record. */
  predicate OthersForeign(events: seq<Event>, r: Record) {
    forall k :: 0 <= k < |events| && events[k].OtherClient? ==> !Carries(events[k].command, r)
  }

  /** An unexecuted renew or release of the record that asks for two or more
      milliseconds. */
  predicate LongPending(w: System) {
    exists i :: 0 <= i < |w.requests| && w.requests[i].reply.None? && Asks(w.requests[i].command, w.record) >= 2
  }

  /** A terminal handle sends no further renew or release, and without one pending
      nothing prolongs the lease. */
  lemma QuietStep(w: System, e: Event, deadline: int)
    requires Sound(w) && Terminal(w.handle) && !LongPending(w) && !HeldBeyond(w.server, w.record, deadline)
    requires e.OtherClient? ==> !Carries(e.command, w.record)
    ensures var t := Apply(w, e);
      Terminal(t.handle) && !LongPending(t) && t.record == w.record && !HeldBeyond(t.server, t.record, deadline)
  {
    hide Execute, Inv, CallsFit, RequestsTrue, AllTruthful, SomeReleased;
    var t := Apply(w, e);
    EventStep(w, e, deadline);
    assert Terminal(t.handle) && t.record == w.record;
    forall i | 0 <= i < |t.requests| && t.requests[i].reply.None? ensures Asks(t.requests[i].command, t.record) < 2 {
      assert i < |w.requests| ==> t.requests[i].command == w.requests[i].command && w.requests[i].reply.None?;
    }
  }

  lemma {:induction false} QuietRun(w: System, events: seq<Event>, deadline: int)
    requires Sound(w) && Terminal(w.handle) && !LongPending(w) && !HeldBeyond(w.server, w.record, deadline)
    requires OthersForeign(events, w.record)
    ensures var t := Run(w, events);
      Terminal(t.handle) && !LongPending(t) && t.record == w.record && !HeldBeyond(t.server, t.record, deadline)
  {
    hide Apply, Sound, HeldBeyond, LongPending, Terminal;
    if events != [] {
      QuietRun(w, events[..|events| - 1], deadline);
      QuietStep(Run(w, events[..|events| - 1]), events[|events| - 1], deadline);
    }
  }

  /** Once the handle is terminal, its lease can still be held beyond the deadline it
      now has if and only if a renew or release of the record asking for two or more
      milliseconds is still unexecuted.  For a released handle this is when the
      minimum lease time is a cap. */
  lemma OutlivesIff(w: System, deadline: int)
    requires Sound(w) && Terminal(w.handle)
    requires w.server.lease == Some(Lease(w.record, deadline)) && w.now < deadline
    ensures (exists events :: OthersForeign(events, w.record) && HeldBeyond(Run(w, events).server, w.record, deadline))
       <==> LongPending(w)
  {
    hide Sound, Run, Inv, CallsFit, RequestsTrue, AllTruthful;
    if LongPending(w) {
      var i :| 0 <= i < |w.requests| && w.requests[i].reply.None? && Asks(w.requests[i].command, w.record) >= 2;
      var e := ExecuteRequest(i, deadline - 1 - w.now);
      EventStep(w, e, deadline);
      RunNothing(w);
      RunStep(w, [e], 0);
      assert [e][..0] == [] && [e][..1] == [e];
      assert OthersForeign([e], w.record);
    } else if events :| OthersForeign(events, w.record) && HeldBeyond(Run(w, events).server, w.record, deadline) {
      QuietRun(w, events, deadline);
    }
  }

  // ----- two ways a released lease is prolonged -----

  const LateEvents: seq<Event> :=
    [StartRenew(1000), StartRelease(false, 50), ExecuteRequest(1, 0), Deliver(1, 0, 0), ExecuteRequest(0, 10)]

  /** The system after `k` of those events. */
  function LateState(r: Record, k: nat): System
    requires k <= 5
  {
    var renew, release := Request(Renew(r, 1000), None), Request(Release(r, 50), None);
    var released := release.(reply := Some(MinimumApplied));
    var w := System(r, Server(r.fence, Some(Lease(r, 100))), 0, Handle(ACQUIRED, None), [], []);
    if k == 0 then w
    else if k == 1 then w.(requests := [renew], calls := [Waiting(Renewing, 0)])
    else if k == 2 then w.(requests := [renew, release], calls := [Waiting(Renewing, 0), Waiting(Releasing(false), 1)])
    else
      var v := w.(
        server := Server(r.fence, Some(Lease(r, 50))), requests := [renew, released],
        calls := [Waiting(Renewing, 0), Waiting(Releasing(false), 1)]);
      if k == 3 then v
      else
        var u := v.(handle := Handle(RELEASED, None),
          calls := [Waiting(Renewing, 0), Ended(Releasing(false), 1, Confirmed)]);
        if k == 4 then u
        else u.(server := Server(r.fence, Some(Lease(r, 1010))), now := 10,
          requests := [renew.(reply := Some(Renewed)), released])
  }

  lemma LateStep(r: Record, k: nat)
    requires k < 5
    ensures Wellformed(LateState(r, k)) && Apply(LateState(r, k), LateEvents[k]) == LateState(r, k + 1)
  {
  }

  /** A release that leaves a minimum time does not cap the lease: a renewal sent
      earlier and executed later still extends it for its full time. */
  lemma LateRenewalOutlivesRelease(r: Record)
    requires 1 <= r.fence <= Decimal.MAX_FENCE
    ensures var w := LateState(r, 0);
      && Start(w) && Sound(w)
      && var t := Run(w, LateEvents);
      && t.handle.status == RELEASED && |t.requests| == 2 && Succeeded(t.requests[1], r)
      && t.now == 10 && Holds(t.server, 1009, r)
  {
    hide Run, Apply, Sound;
    var w, e := LateState(r, 0), LateEvents;
    StartSound(w);
    assert e[..0] == [] && e[..5] == e;
    assert Run(w, []) == w by { RunNothing(w); }
    for k := 0 to 5
      invariant Run(w, e[..k]) == LateState(r, k)
    {
      RunStep(w, e, k);
      LateStep(r, k);
    }
  }

  const LateReleaseEvents: seq<Event> :=
    [StartRelease(false, 50), Lose(0, true, 0), ExecuteRequest(1, 10), Deliver(0, 0, 40), ExecuteRequest(2, 0),
     Deliver(0, 0, 0), ExecuteRequest(0, 35)]

  /** The system after `k` of those events, all of one call. */
  function LateReleaseState(r: Record, k: nat): System
    requires k <= 7
  {
    var first, again, reconcile := Request(Release(r, 50), None), Request(Release(r, 40), None),
      Request(Reconcile, None);
    var found, done := reconcile.(reply := Some(Present(r))), again.(reply := Some(MinimumApplied));
    var w := System(r, Server(r.fence, Some(Lease(r, 1000))), 0, Handle(ACQUIRED, None), [], []);
    if k == 0 then w
    else if k == 1 then w.(requests := [first], calls := [Waiting(Releasing(false), 0)])
    else if k == 2 then w.(requests := [first, reconcile], calls := [Waiting(Reconciling(false), 1)])
    else if k == 3 then w.(now := 10, requests := [first, found], calls := [Waiting(Reconciling(false), 1)])
    else if k == 4 then w.(now := 10, requests := [first, found, again], calls := [Waiting(Repeating(false), 2)])
    else
      var v := w.(
        now := 10, server := Server(r.fence, Some(Lease(r, 50))),
        requests := [first, found, done], calls := [Waiting(Repeating(false), 2)]);
      if k == 5 then v
      else
        var u := v.(handle := Handle(RELEASED, None), calls := [Ended(Repeating(false), 2, Confirmed)]);
        if k == 6 then u
        else
          u.(now := 45, server := Server(r.fence, Some(Lease(r, 95))),
             requests := [first.(reply := Some(MinimumApplied)), found, done])
  }

  lemma LateReleaseStep(r: Record, k: nat)
    requires k < 7
    ensures Wellformed(LateReleaseState(r, k))
    ensures Apply(LateReleaseState(r, k), LateReleaseEvents[k]) == LateReleaseState(r, k + 1)
  {
  }

  /** Nor does it when its own first, timed-out script is executed after the repeated
      one: the minimum then counts again from that later time. */
  lemma LateReleaseOutlivesRelease(r: Record)
    requires 1 <= r.fence <= Decimal.MAX_FENCE
    ensures var w := LateReleaseState(r, 0);
      && Start(w) && Sound(w)
      && HeldBeyond(Run(w, LateReleaseEvents).server, r, 94)
      && var t := Run(w, LateReleaseEvents[..6]);
      && t.handle.status == RELEASED && t.now == 10 && t.server.lease == Some(Lease(r, 50)) && LongPending(t)
  {
    hide Run, Apply, Sound;
    var w, e := LateReleaseState(r, 0), LateReleaseEvents;
    StartSound(w);
    assert e[..0] == [] && e[..7] == e;
    assert Run(w, []) == w by { RunNothing(w); }
    for k := 0 to 7
      invariant Run(w, e[..k]) == LateReleaseState(r, k)
      invariant k >= 6 ==> Run(w, e[..6]) == LateReleaseState(r, 6)
    {
      RunStep(w, e, k);
      LateReleaseStep(r, k);
    }
    assert LateReleaseState(r, 6).requests[0].reply.None?;
  }
}
