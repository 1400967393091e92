/** The circuit breaker's data under its lock, and runs in which admissions are
    resolved in any order, across any state changes. */
module Circuit {
  import opened Wrappers

  datatype CircuitState = CLOSED | OPEN | HALF_OPEN

  datatype Config = Config(failureThreshold: nat, openDuration: real, halfOpenMaxCalls: nat, recoveryThreshold: nat)

  predicate ValidConfig(c: Config) {
    c.failureThreshold >= 1 && c.openDuration > 0.0 && c.halfOpenMaxCalls >= 1 && c.recoveryThreshold >= 1
  }

  datatype Data = Data(
    state: CircuitState,
    consecutiveFailures: int,
    recoverySuccesses: int,
    halfOpenInFlight: int,
    openUntil: real,
    generation: nat)

  datatype Admission = Admission(generation: nat, state: CircuitState, ownsSlot: bool)

  datatype Change = Change(previous: CircuitState, current: CircuitState)

  datatype Verdict = Success | Failure | Ignored

  const Initial := Data(CLOSED, 0, 0, 0, 0.0, 0)

  function Switch(d: Data, c: Config, s: CircuitState, now: real): Data {
    Data(s, 0, 0, 0, if s == OPEN then now + c.openDuration else d.openUntil, d.generation + 1)
  }

  function Admit(d: Data, c: Config, now: real): (Data, Option<Admission>) {
    if d.state == OPEN && now < d.openUntil then (d, None)
    else
      var e := if d.state == OPEN then Switch(d, c, HALF_OPEN, now) else d;
      if e.state == HALF_OPEN then
        if e.halfOpenInFlight >= c.halfOpenMaxCalls then (e, None)
        else (e.(halfOpenInFlight := e.halfOpenInFlight + 1), Some(Admission(e.generation, HALF_OPEN, true)))
      else (e, Some(Admission(e.generation, e.state, false)))
  }

  function AfterIgnored(d: Data, a: Admission): Data {
    if a.generation == d.generation && a.ownsSlot && d.state == HALF_OPEN then
      d.(halfOpenInFlight := d.halfOpenInFlight - 1)
    else d
  }

  function AfterSuccess(d: Data, c: Config, a: Admission, now: real): Data {
    if a.generation != d.generation then d
    else if a.ownsSlot && d.state == HALF_OPEN then
      var e := d.(halfOpenInFlight := d.halfOpenInFlight - 1, recoverySuccesses := d.recoverySuccesses + 1);
      if e.recoverySuccesses >= c.recoveryThreshold then Switch(e, c, CLOSED, now) else e
    else if d.state == CLOSED then d.(consecutiveFailures := 0)
    else d
  }

  function AfterFailure(d: Data, c: Config, a: Admission, now: real): Data {
    if a.generation != d.generation then d
    else if a.ownsSlot && d.state == HALF_OPEN then
      Switch(d.(halfOpenInFlight := d.halfOpenInFlight - 1), c, OPEN, now)
    else if d.state == CLOSED then
      var e := d.(consecutiveFailures := d.consecutiveFailures + 1);
      if e.consecutiveFailures >= c.failureThreshold then Switch(e, c, OPEN, now) else e
    else d
  }

  function Resolve(d: Data, c: Config, a: Admission, v: Verdict, now: real): Data {
    match v
    case Success => AfterSuccess(d, c, a, now)
    case Failure => AfterFailure(d, c, a, now)
    case Ignored => AfterIgnored(d, a)
  }

  // ----- one call's resolution -----

  datatype OperationEnd = ReturnedValue | BrokeContract | RaisedException | RaisedBase

  /** What happens around an admitted call: whether its first events were emitted,
      how the operation ended, what the classifier said (`None`: it raised) and what
      the clock then read (`None`: it raised). */
  datatype Course = Course(emitted: bool, end: OperationEnd, classified: Option<bool>, clock: Option<real>)

  /** Only a classified exception is a failure and only a returned value a success;
      whatever else goes wrong gives the admission back. */
  function VerdictOf(course: Course): (v: Verdict)
    ensures v == Success <==> course.emitted && course.end == ReturnedValue && course.clock.Some?
    ensures v == Failure <==>
      course.emitted && course.end == RaisedException && course.classified == Some(true) && course.clock.Some?
  {
    if !course.emitted then Ignored
    else
      match course.end
      case ReturnedValue => if course.clock.Some? then Success else Ignored
      case RaisedException => if course.classified == Some(true) && course.clock.Some? then Failure else Ignored
      case _ => Ignored
  }

  class CircuitData {
    const config: Config
    var state: CircuitState
    var consecutiveFailures: int
    var recoverySuccesses: int
    var halfOpenInFlight: int
    var openUntil: real
    var generation: nat

    function View(): Data reads this {
      Data(state, consecutiveFailures, recoverySuccesses, halfOpenInFlight, openUntil, generation)
    }

    constructor (config: Config)
      ensures View() == Initial && this.config == config
    {
      this.config := config;
      state := CLOSED;
      consecutiveFailures, recoverySuccesses, halfOpenInFlight := 0, 0, 0;
      openUntil, generation := 0.0, 0;
    }

    method Transition(next: CircuitState, now: real) returns (change: Change)
      modifies this
      ensures View() == Switch(old(View()), config, next, now)
      ensures change == Change(old(state), next)
    {
      change := Change(state, next);
      state := next;
      generation := generation + 1;
      consecutiveFailures := 0;
      recoverySuccesses := 0;
      halfOpenInFlight := 0;
      if next == OPEN {
        openUntil := now + config.openDuration;
      }
    }

    method TryAdmit(now: real) returns (admission: Option<Admission>, change: Option<Change>)
      modifies this
      ensures (View(), admission) == Admit(old(View()), config, now)
      ensures change == if old(state) == state then None else Some(Change(old(state), state))
    {
      change := None;
      if state == OPEN {
        if now < openUntil { return None, None; }
        var made := Transition(HALF_OPEN, now);
        change := Some(made);
      }
      var ownsSlot := state == HALF_OPEN;
      if ownsSlot {
        if halfOpenInFlight >= config.halfOpenMaxCalls { return None, change; }
        halfOpenInFlight := halfOpenInFlight + 1;
      }
      admission := Some(Admission(generation, state, ownsSlot));
    }

    method Release(a: Admission)
      modifies this`halfOpenInFlight
      ensures View() == AfterIgnored(old(View()), a)
    {
      if a.generation == generation && a.ownsSlot && state == HALF_OPEN {
        halfOpenInFlight := halfOpenInFlight - 1;
      }
    }

    method RecordSuccess(a: Admission, now: real) returns (change: Option<Change>)
      modifies this
      ensures View() == AfterSuccess(old(View()), config, a, now)
      ensures change == if old(state) == state then None else Some(Change(old(state), state))
    {
      if a.generation != generation { return None; }
      if a.ownsSlot && state == HALF_OPEN {
        halfOpenInFlight := halfOpenInFlight - 1;
        recoverySuccesses := recoverySuccesses + 1;
        if recoverySuccesses >= config.recoveryThreshold {
          var made := Transition(CLOSED, now);
          return Some(made);
        }
      } else if state == CLOSED {
        consecutiveFailures := 0;
      }
      change := None;
    }

    method RecordFailure(a: Admission, now: real) returns (change: Option<Change>)
      modifies this
      ensures View() == AfterFailure(old(View()), config, a, now)
      ensures change == if old(state) == state then None else Some(Change(old(state), state))
    {
      if a.generation != generation { return None; }
      if a.ownsSlot && state == HALF_OPEN {
        halfOpenInFlight := halfOpenInFlight - 1;
        var made := Transition(OPEN, now);
        return Some(made);
      }
      if state == CLOSED {
        consecutiveFailures := consecutiveFailures + 1;
        if consecutiveFailures >= config.failureThreshold {
          var made := Transition(OPEN, now);
          return Some(made);
        }
      }
      change := None;
    }
  }

  /** The part of `call` after its admission: on every path the admission is resolved
      exactly once. */
  method ResolveCall(data: CircuitData, a: Admission, course: Course)
    modifies data
    ensures data.View() ==
        Resolve(old(data.View()), data.config, a, VerdictOf(course),
          if course.clock.Some? then course.clock.value else 0.0)
  {
    if !course.emitted {
      data.Release(a);
      return;
    }
    match course.end {
      case BrokeContract => data.Release(a);
      case RaisedBase => data.Release(a);
      case RaisedException =>
        if course.classified.None? {
          data.Release(a);
        } else if course.clock.None? {
          data.Release(a);
        } else if course.classified.value {
          var _ := data.RecordFailure(a, course.clock.value);
        } else {
          data.Release(a);
        }
      case ReturnedValue =>
        if course.clock.None? {
          data.Release(a);
        } else {
          var _ := data.RecordSuccess(a, course.clock.value);
        }
    }
  }

  // ----- runs -----

  /** An admission given out, and whether its call has resolved it. */
  datatype Ticket = Ticket(admission: Admission, open: bool)

  /** A resolution that took place, with the generation of its admission. */
  datatype Entry = Entry(generation: nat, verdict: Verdict)

  datatype World = World(data: Data, tickets: seq<Ticket>, log: seq<Entry>)

  datatype Event = TryAdmit(now: real) | ResolveTicket(ticket: nat, verdict: Verdict, now: real)

  function Apply(w: World, c: Config, e: Event): World {
    match e
    case TryAdmit(now) =>
      var (d, a) := Admit(w.data, c, now);
      w.(data := d, tickets := w.tickets + if a.Some? then [Ticket(a.value, true)] else [])
    case ResolveTicket(i, v, now) =>
      if i < |w.tickets| && w.tickets[i].open then
        var a := w.tickets[i].admission;
        World(Resolve(w.data, c, a, v, now), w.tickets[i := Ticket(a, false)], w.log + [Entry(a.generation, v)])
      else w
  }

  const Start := World(Initial, [], [])

  function Run(c: Config, events: seq<Event>): World {
    if events == [] then Start else Apply(Run(c, events[..|events| - 1]), c, events[|events| - 1])
  }

  /** Unresolved admissions of a generation that own a half-open slot. */
  function Slots(tickets: seq<Ticket>, g: nat): nat {
    if tickets == [] then 0
    else
      var last := tickets[|tickets| - 1];
      Slots(tickets[..|tickets| - 1], g)
      + if last.open && last.admission.ownsSlot && last.admission.generation == g then 1 else 0
  }

  /** The failures at the end of what a generation's calls came to; ignored calls and
      those of other generations do not interrupt them. */
  function Trailing(log: seq<Entry>, g: nat): nat {
    if log == [] then 0
    else
      var init, last := log[..|log| - 1], log[|log| - 1];
      if last.generation != g || last.verdict == Ignored then Trailing(init, g)
      else if last.verdict == Failure then Trailing(init, g) + 1
      else 0
  }

  function Successes(log: seq<Entry>, g: nat): nat {
    if log == [] then 0
    else
      Successes(log[..|log| - 1], g)
      + if log[|log| - 1] == Entry(g, Success) then 1 else 0
  }

  predicate TicketsKnown(w: World) {
    forall i :: 0 <= i < |w.tickets| ==>
      && w.tickets[i].admission.generation <= w.data.generation
      && (w.tickets[i].admission.generation == w.data.generation ==>
            && w.data.state != OPEN && (w.tickets[i].admission.ownsSlot <==> w.data.state == HALF_OPEN))
  }

  predicate LogKnown(w: World) {
    forall i :: 0 <= i < |w.log| ==> w.log[i].generation <= w.data.generation
  }

  predicate Inv(w: World, c: Config) {
    && ValidConfig(c) && TicketsKnown(w) && LogKnown(w)
    && w.data.halfOpenInFlight == Slots(w.tickets, w.data.generation) <= c.halfOpenMaxCalls
    && (w.data.state == CLOSED ==>
          w.data.consecutiveFailures == Trailing(w.log, w.data.generation) < c.failureThreshold)
    && (w.data.state == HALF_OPEN ==>
          w.data.recoverySuccesses == Successes(w.log, w.data.generation) < c.recoveryThreshold)
  }

  // ----- how the counts move -----

  lemma SlotsAppend(tickets: seq<Ticket>, t: Ticket, g: nat)
    ensures Slots(tickets + [t], g) ==
      Slots(tickets, g) + if t.open && t.admission.ownsSlot && t.admission.generation == g then 1 else 0
  {
    assert (tickets + [t])[..|tickets|] == tickets;
  }

  lemma {:induction false} SlotsResolve(tickets: seq<Ticket>, i: nat, g: nat)
    requires i < |tickets| && tickets[i].open
    ensures var a := tickets[i].admission;
      Slots(tickets[i := Ticket(a, false)], g) == Slots(tickets, g) - if a.ownsSlot && a.generation == g then 1 else 0
    decreases |tickets|
  {
    var closed := tickets[i := Ticket(tickets[i].admission, false)];
    var last := |tickets| - 1;
    if i < last {
      SlotsResolve(tickets[..last], i, g);
      assert closed[..last] == tickets[..last][i := Ticket(tickets[i].admission, false)];
    } else {
      assert closed[..last] == tickets[..last];
    }
  }

  lemma {:induction false} NoSlots(tickets: seq<Ticket>, g: nat)
    requires forall i :: 0 <= i < |tickets| ==> tickets[i].admission.generation == g ==> !tickets[i].admission.ownsSlot
    ensures Slots(tickets, g) == 0
  {
    if tickets != [] { NoSlots(tickets[..|tickets| - 1], g); }
  }

  lemma {:induction false} NothingLogged(log: seq<Entry>, g: nat)
    requires forall i :: 0 <= i < |log| ==> log[i].generation < g
    ensures Trailing(log, g) == 0 && Successes(log, g) == 0
  {
    if log != [] { NothingLogged(log[..|log| - 1], g); }
  }

  /** After a transition nothing of the new generation exists yet. */
  lemma NewGeneration(w: World, s: CircuitState, c: Config, now: real)
    requires ValidConfig(c) && TicketsKnown(w) && LogKnown(w)
    ensures Inv(w.(data := Switch(w.data, c, s, now)), c)
  {
    NoSlots(w.tickets, w.data.generation + 1);
    NothingLogged(w.log, w.data.generation + 1);
  }

  lemma AdmitKeeps(w: World, c: Config, now: real)
    requires Inv(w, c)
    ensures Inv(Apply(w, c, TryAdmit(now)), c)
  {
    hide Slots, Trailing, Successes;
    if w.data.state == OPEN && now >= w.data.openUntil {
      NewGeneration(w, HALF_OPEN, c, now);
      SlotsAppend(w.tickets, Ticket(Admission(w.data.generation + 1, HALF_OPEN, true), true), w.data.generation + 1);
    } else {
      SlotsAppend(w.tickets, Ticket(Admission(w.data.generation, w.data.state, w.data.state == HALF_OPEN), true),
        w.data.generation);
      assert w.tickets + [] == w.tickets;
    }
  }

  lemma LogNext(log: seq<Entry>, e: Entry, g: nat)
    ensures Trailing(log + [e], g) ==
      if e.generation != g || e.verdict == Ignored then Trailing(log, g)
      else if e.verdict == Failure then Trailing(log, g) + 1 else 0
    ensures Successes(log + [e], g) == Successes(log, g) + if e == Entry(g, Success) then 1 else 0
  {
    assert (log + [e])[..|log|] == log;
  }

  lemma ResolveKeeps(w: World, c: Config, i: nat, v: Verdict, now: real)
    requires Inv(w, c) && i < |w.tickets| && w.tickets[i].open
    ensures Inv(Apply(w, c, ResolveTicket(i, v, now)), c)
  {
    hide Slots, Trailing, Successes;
    var a := w.tickets[i].admission;
    var t := Apply(w, c, ResolveTicket(i, v, now));
    SlotsResolve(w.tickets, i, w.data.generation);
    LogNext(w.log, Entry(a.generation, v), w.data.generation);
    var kept := World(w.data, t.tickets, t.log);
    assert TicketsKnown(kept) && LogKnown(kept);
    if t.data.generation != w.data.generation {
      NewGeneration(kept, t.data.state, c, now);
    }
  }

  lemma {:induction false} RunInv(c: Config, events: seq<Event>)
    requires ValidConfig(c)
    ensures Inv(Run(c, events), c)
  {
    hide Apply, Inv;
    if events == [] {
      assert Inv(Start, c) by { StartInv(c); }
    } else {
      var w, e := Run(c, events[..|events| - 1]), events[|events| - 1];
      RunInv(c, events[..|events| - 1]);
      match e
      case TryAdmit(now) => AdmitKeeps(w, c, now);
      case ResolveTicket(i, v, now) =>
        if i < |w.tickets| && w.tickets[i].open { ResolveKeeps(w, c, i, v, now); } else { Unknown(w, c, i, v, now); }
    }
  }

  lemma StartInv(c: Config)
    requires ValidConfig(c)
    ensures Inv(Start, c)
  {
  }

  lemma Unknown(w: World, c: Config, i: nat, v: Verdict, now: real)
    requires i >= |w.tickets| || !w.tickets[i].open
    ensures Apply(w, c, ResolveTicket(i, v, now)) == w
  {
  }

  // ----- what every run guarantees -----

  /** The in-flight count is the number of unresolved slot owners of the current
      generation, and never exceeds the limit. */
  lemma SlotsAreBounded(c: Config, events: seq<Event>)
    requires ValidConfig(c)
    ensures var w := Run(c, events);
      w.data.halfOpenInFlight == Slots(w.tickets, w.data.generation) <= c.halfOpenMaxCalls
  {
    hide Run, Slots;
    RunInv(c, events);
  }

  /** An outcome of an older generation changes nothing but its own ticket. */
  lemma StaleChangesNothing(d: Data, c: Config, a: Admission, v: Verdict, now: real)
    requires a.generation != d.generation
    ensures Resolve(d, c, a, v, now) == d
  {
  }

  /** A closed breaker opens on exactly the resolution that makes the trailing run of
      its generation's classified failures reach the threshold. */
  lemma OpensAtThreshold(c: Config, events: seq<Event>, i: nat, v: Verdict, now: real)
    requires ValidConfig(c)
    requires var w := Run(c, events); w.data.state == CLOSED && i < |w.tickets| && w.tickets[i].open
    ensures var w := Run(c, events);
      var t := Apply(w, c, ResolveTicket(i, v, now));
      && (t.data.state == OPEN <==> Trailing(t.log, w.data.generation) >= c.failureThreshold)
      && (t.data.state == OPEN ==>
            Trailing(t.log, w.data.generation) == c.failureThreshold && t.data.openUntil == now + c.openDuration)
      && (t.data.state == OPEN || t.data.state == CLOSED)
  {
    hide Run, Slots, Trailing, Successes;
    RunInv(c, events);
    var w := Run(c, events);
    LogNext(w.log, Entry(w.tickets[i].admission.generation, v), w.data.generation);
  }

  /** A half-open breaker closes on exactly the success that reaches the recovery
      threshold, and reopens on the first current failure. */
  lemma HalfOpenDecides(c: Config, events: seq<Event>, i: nat, v: Verdict, now: real)
    requires ValidConfig(c)
    requires var w := Run(c, events); w.data.state == HALF_OPEN && i < |w.tickets| && w.tickets[i].open
    ensures var w := Run(c, events);
      var t := Apply(w, c, ResolveTicket(i, v, now));
      var current := w.tickets[i].admission.generation == w.data.generation;
      && (t.data.state == CLOSED <==> Successes(t.log, w.data.generation) >= c.recoveryThreshold)
      && (t.data.state == OPEN <==> current && v == Failure)
      && (t.data.state == OPEN ==> t.data.openUntil == now + c.openDuration)
  {
    hide Run, Slots, Trailing, Successes;
    RunInv(c, events);
    var w := Run(c, events);
    LogNext(w.log, Entry(w.tickets[i].admission.generation, v), w.data.generation);
  }

  /** A half-open breaker with nothing unresolved always admits, and an open one
      admits exactly from its deadline on. */
  lemma NeverStuck(c: Config, events: seq<Event>, now: real)
    requires ValidConfig(c)
    ensures var w := Run(c, events);
      && (w.data.state == HALF_OPEN ==>
            (Admit(w.data, c, now).1.Some? <==> Slots(w.tickets, w.data.generation) < c.halfOpenMaxCalls))
      && (w.data.state == OPEN ==> (Admit(w.data, c, now).1.Some? <==> now >= w.data.openUntil))
      && (w.data.state == CLOSED ==> Admit(w.data, c, now).1.Some?)
  {
    hide Run, Slots, Trailing, Successes;
    RunInv(c, events);
  }

  /** From its deadline on an open breaker lets one call probe: it is half-open, one
      generation later, and that call's admission is the one unresolved slot owner. */
  lemma OpenLetsOneProbe(c: Config, events: seq<Event>, now: real)
    requires ValidConfig(c)
    requires Run(c, events).data.state == OPEN && now >= Run(c, events).data.openUntil
    ensures var w := Run(c, events);
      var t := Apply(w, c, TryAdmit(now));
      && t.data.state == HALF_OPEN && t.data.generation == w.data.generation + 1
      && t.tickets == w.tickets + [Ticket(Admission(t.data.generation, HALF_OPEN, true), true)]
      && Slots(t.tickets, t.data.generation) == 1 == t.data.halfOpenInFlight
      && t.data.recoverySuccesses == 0 == Successes(t.log, t.data.generation)
  {
    hide Run, Slots, Successes, Trailing;
    RunInv(c, events);
    AdmitKeeps(Run(c, events), c, now);
  }

  /** An admission is of the state and generation the breaker is in when it is given,
      and owns a slot exactly when that is half-open. */
  lemma AdmittedIff(c: Config, events: seq<Event>, now: real)
    requires ValidConfig(c)
    ensures var w := Run(c, events);
      var t := Apply(w, c, TryAdmit(now));
      && (t.tickets == w.tickets <==>
            || (w.data.state == OPEN && now < w.data.openUntil)
            || (w.data.state == HALF_OPEN && Slots(w.tickets, w.data.generation) == c.halfOpenMaxCalls))
      && (t.tickets == w.tickets ==> t == w)
      && (t.tickets != w.tickets ==>
            && t.tickets == w.tickets + [Ticket(
                 Admission(t.data.generation, t.data.state, t.data.state == HALF_OPEN), true)]
            && t.data.state != OPEN)
  {
    hide Run, Slots, Successes, Trailing;
    RunInv(c, events);
    assert Run(c, events).tickets + [] == Run(c, events).tickets;
  }

  /** The edges of the state machine: in every run a breaker opens only by a failure
      recorded for its current generation, becomes half-open only from open by an
      admission past the deadline, and closes only from half-open by the success that
      reaches the threshold.  Each edge starts a generation, and nothing else does. */
  lemma EdgesOnly(c: Config, events: seq<Event>, e: Event)
    requires ValidConfig(c)
    ensures var w := Run(c, events);
      var t := Apply(w, c, e);
      && t.data.generation == w.data.generation + (if t.data.state == w.data.state then 0 else 1)
      && (w.data.state != t.data.state ==>
            match t.data.state
            case HALF_OPEN => w.data.state == OPEN && e.TryAdmit? && e.now >= w.data.openUntil
            case OPEN => Settles(w, e, Failure) && t.data.openUntil == e.now + c.openDuration
            case CLOSED => w.data.state == HALF_OPEN && Settles(w, e, Success))
      && (t.data.state != OPEN || w.data.state == OPEN ==> t.data.openUntil == w.data.openUntil)
  {
    hide Run, Slots, Successes, Trailing;
    RunInv(c, events);
  }

  /** The event resolves a current admission with this verdict. */
  predicate Settles(w: World, e: Event, v: Verdict) {
    && e.ResolveTicket? && e.verdict == v && e.ticket < |w.tickets| && w.tickets[e.ticket].open
    && w.tickets[e.ticket].admission.generation == w.data.generation
  }
}
