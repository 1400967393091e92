/** The client's lease handle: every section its lock protects, as a function of
    the handle and of what the call around it received. */
module LeaderHandle {
  import opened Wrappers
  import opened LeaseRecord
  import opened LeaderServer

  /** A failure is the one exception object that was stored; `serial` tells two of
      a kind apart. */
  datatype Failure = BackendError(serial: nat) | ReleaseError(serial: nat)

  datatype Status = ACQUIRED | ENTERED | LOST | RELEASED | UNKNOWN

  datatype Handle = Handle(status: Status, failure: Option<Failure>)

  /** What a call gets for a request it sent. */
  datatype Answer = Replied(reply: Reply) | TimedOut | Broken

  /** What a section decides: go on to the next request, or end the call. */
  datatype Decision =
    | Proceed
    | Confirmed
    | Denied
    | RaisedLeaseLost
    | RaisedRelease
    | Raised(failure: Failure)

  predicate Coherent(h: Handle) {
    h.status == UNKNOWN <==> h.failure.Some?
  }

  function FailUnknown(f: Failure): (Handle, Decision) {
    (Handle(UNKNOWN, Some(f)), Raised(f))
  }

  /** First section of `renew` and `is_held`. */
  function Gate(h: Handle): Decision
    requires Coherent(h)
  {
    if h.status == UNKNOWN then Raised(h.failure.value)
    else if h.status == LOST || h.status == RELEASED then Denied
    else Proceed
  }

  /** Last section of `renew` (`good` is `Renewed`) and of `is_held` (`Held`). */
  function Settle(h: Handle, answer: Answer, good: Reply, serial: nat): (Handle, Decision)
    requires Coherent(h)
  {
    if Gate(h) != Proceed then (h, Gate(h))
    else if !answer.Replied? then FailUnknown(BackendError(serial))
    else if answer.reply == good then (h, Confirmed)
    else if answer.reply == NotHeld then (h.(status := LOST), Denied)
    else FailUnknown(BackendError(serial))
  }

  function ReleaseGate(h: Handle, scoped: bool): Decision
    requires Coherent(h)
  {
    if h.status == UNKNOWN then Raised(h.failure.value)
    else if h.status != LOST && h.status != RELEASED then Proceed
    else if scoped && h.status == RELEASED then Confirmed
    else if scoped then RaisedLeaseLost
    else RaisedRelease
  }

  function LoseLease(h: Handle, scoped: bool): (Handle, Decision) {
    (h.(status := LOST), if scoped then RaisedLeaseLost else RaisedRelease)
  }

  function FinishRelease(h: Handle, reply: Reply, scoped: bool, serial: nat): (Handle, Decision) {
    if reply == Deleted || reply == MinimumApplied then (h.(status := RELEASED), Confirmed)
    else if reply == NotHeld then LoseLease(h, scoped)
    else FailUnknown(BackendError(serial))
  }

  /** After the first release script; a timeout has no section of its own. */
  function ReleaseEnd(h: Handle, answer: Answer, scoped: bool, serial: nat): (Handle, Decision)
    requires Coherent(h)
  {
    if answer.TimedOut? then (h, Proceed)
    else if ReleaseGate(h, scoped) != Proceed then (h, ReleaseGate(h, scoped))
    else if answer.Broken? then FailUnknown(BackendError(serial))
    else FinishRelease(h, answer.reply, scoped, serial)
  }

  /** After the reconcile script: go on only if the lease still has this owner. */
  function ReconcileEnd(h: Handle, owner: string, answer: Answer, scoped: bool, serial: nat): (Handle, Decision)
    requires Coherent(h)
  {
    if ReleaseGate(h, scoped) != Proceed then (h, ReleaseGate(h, scoped))
    else if !answer.Replied? then FailUnknown(BackendError(serial))
    else if answer.reply == Missing then FailUnknown(ReleaseError(serial))
    else if !answer.reply.Present? then FailUnknown(BackendError(serial))
    else if answer.reply.record.owner != owner then LoseLease(h, scoped)
    else (h, Proceed)
  }

  /** After the repeated release script. */
  function RepeatEnd(h: Handle, answer: Answer, scoped: bool, serial: nat): (Handle, Decision)
    requires Coherent(h)
  {
    if ReleaseGate(h, scoped) != Proceed then (h, ReleaseGate(h, scoped))
    else if answer.TimedOut? then FailUnknown(ReleaseError(serial))
    else if answer.Broken? then FailUnknown(BackendError(serial))
    else FinishRelease(h, answer.reply, scoped, serial)
  }

  function Enter(h: Handle): (Handle, Decision)
    requires Coherent(h)
  {
    if h.status == UNKNOWN then (h, Raised(h.failure.value))
    else if h.status != ACQUIRED then (h, RaisedLeaseLost)
    else (h.(status := ENTERED), Proceed)
  }

  /** The renewal worker did not stop in time. */
  function StopTimeout(h: Handle, serial: nat): (Handle, Decision)
    requires Coherent(h)
  {
    if h.status == UNKNOWN then (h, Raised(h.failure.value)) else FailUnknown(BackendError(serial))
  }

  /** The renewal worker was ended by an exception. */
  function WorkerCrash(h: Handle, serial: nat): Handle {
    if h.status == UNKNOWN then h else FailUnknown(BackendError(serial)).0
  }

  /** Milliseconds a released lease must still stay, rounded up. */
  function RemainingMinimum(minimum: nat, acquired: int, now: int): (r: nat)
    ensures r == 0 <==> now - acquired >= minimum
    ensures now + r * 1_000_000 >= acquired + minimum
    ensures r > 0 ==> now + (r - 1) * 1_000_000 < acquired + minimum
  {
    var remaining := minimum - (now - acquired);
    if remaining <= 0 then 0 else (remaining + 999_999) / 1_000_000
  }

  /** The moves a section may make. */
  predicate Allowed(before: Handle, after: Handle) {
    match before.status
    case UNKNOWN => after == before
    case LOST => after.status == LOST || after.status == UNKNOWN
    case RELEASED => after.status == RELEASED || after.status == UNKNOWN
    case ENTERED => after.status != ACQUIRED
    case ACQUIRED => true
  }

  class RedisLockLease {
    const owner: string
    var status: Status
    var failure: Option<Failure>

    function View(): Handle reads this {
      Handle(status, failure)
    }

    predicate Valid() reads this {
      Coherent(View())
    }

    constructor (owner: string)
      ensures Valid() && View() == Handle(ACQUIRED, None) && this.owner == owner
    {
      this.owner := owner;
      status, failure := ACQUIRED, None;
    }

    method FailWith(f: Failure) returns (d: Decision)
      modifies this
      ensures Valid() && (View(), d) == FailUnknown(f)
    {
      status := UNKNOWN;
      failure := Some(f);
      d := Raised(f);
    }

    method BeginOperation() returns (d: Decision)
      requires Valid()
      ensures d == Gate(View())
    {
      if status == UNKNOWN { return Raised(failure.value); }
      if status == LOST || status == RELEASED { return Denied; }
      d := Proceed;
    }

    method EndOperation(answer: Answer, good: Reply, serial: nat) returns (d: Decision)
      requires Valid()
      modifies this
      ensures Valid() && (View(), d) == Settle(old(View()), answer, good, serial) && Allowed(old(View()), View())
    {
      d := BeginOperation();
      if d != Proceed { return; }
      if !answer.Replied? {
        d := FailWith(BackendError(serial));
        return;
      }
      if answer.reply == good { return Confirmed; }
      if answer.reply == NotHeld {
        status := LOST;
        return Denied;
      }
      d := FailWith(BackendError(serial));
    }

    method FinishTerminalRelease(scoped: bool) returns (d: Decision)
      requires Valid()
      ensures d == ReleaseGate(View(), scoped)
    {
      if status == UNKNOWN { return Raised(failure.value); }
      if status != LOST && status != RELEASED { return Proceed; }
      if scoped && status == RELEASED { return Confirmed; }
      if scoped { return RaisedLeaseLost; }
      d := RaisedRelease;
    }

    method FinishReleaseStatus(reply: Reply, scoped: bool, serial: nat) returns (d: Decision)
      requires Valid() && ReleaseGate(View(), scoped) == Proceed
      modifies this
      ensures Valid() && (View(), d) == FinishRelease(old(View()), reply, scoped, serial)
    {
      if reply == Deleted || reply == MinimumApplied {
        status := RELEASED;
        return Confirmed;
      }
      if reply == NotHeld {
        status := LOST;
        return if scoped then RaisedLeaseLost else RaisedRelease;
      }
      d := FailWith(BackendError(serial));
    }

    method EndRelease(answer: Answer, scoped: bool, serial: nat) returns (d: Decision)
      requires Valid()
      modifies this
      ensures Valid() && (View(), d) == ReleaseEnd(old(View()), answer, scoped, serial) && Allowed(old(View()), View())
    {
      if answer.TimedOut? { return Proceed; }
      d := FinishTerminalRelease(scoped);
      if d != Proceed { return; }
      if answer.Broken? {
        d := FailWith(BackendError(serial));
        return;
      }
      d := FinishReleaseStatus(answer.reply, scoped, serial);
    }

    method EndReconcile(answer: Answer, scoped: bool, serial: nat) returns (d: Decision)
      requires Valid()
      modifies this
      ensures Valid() && (View(), d) == ReconcileEnd(old(View()), owner, answer, scoped, serial) &&
          Allowed(old(View()), View())
    {
      d := FinishTerminalRelease(scoped);
      if d != Proceed { return; }
      if !answer.Replied? {
        d := FailWith(BackendError(serial));
        return;
      }
      if answer.reply == Missing {
        d := FailWith(ReleaseError(serial));
        return;
      }
      if !answer.reply.Present? {
        d := FailWith(BackendError(serial));
        return;
      }
      if answer.reply.record.owner != owner {
        status := LOST;
        return if scoped then RaisedLeaseLost else RaisedRelease;
      }
    }

    method EndRepeat(answer: Answer, scoped: bool, serial: nat) returns (d: Decision)
      requires Valid()
      modifies this
      ensures Valid() && (View(), d) == RepeatEnd(old(View()), answer, scoped, serial) && Allowed(old(View()), View())
    {
      d := FinishTerminalRelease(scoped);
      if d != Proceed { return; }
      if answer.TimedOut? {
        d := FailWith(ReleaseError(serial));
        return;
      }
      if answer.Broken? {
        d := FailWith(BackendError(serial));
        return;
      }
      d := FinishReleaseStatus(answer.reply, scoped, serial);
    }

    method EnterScope() returns (d: Decision)
      requires Valid()
      modifies this`status
      ensures Valid() && (View(), d) == Enter(old(View())) && Allowed(old(View()), View())
    {
      if status == UNKNOWN { return Raised(failure.value); }
      if status != ACQUIRED { return RaisedLeaseLost; }
      status := ENTERED;
      d := Proceed;
    }

    method StopTimedOut(serial: nat) returns (d: Decision)
      requires Valid()
      modifies this
      ensures Valid() && (View(), d) == StopTimeout(old(View()), serial) && Allowed(old(View()), View())
    {
      if status == UNKNOWN { return Raised(failure.value); }
      d := FailWith(BackendError(serial));
    }

    method WorkerCrashed(serial: nat)
      requires Valid()
      modifies this
      ensures Valid() && View() == WorkerCrash(old(View()), serial) && Allowed(old(View()), View())
    {
      if status != UNKNOWN {
        var d := FailWith(BackendError(serial));
      }
    }
  }
}
