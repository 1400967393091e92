/** One distributed flight: the claim loop, the poll loop inside it, and the owner's
    load and publish, against any server, clock and loader at all.  What each of
    these answers may depend on everything the flight did before. */
module FlightLoop {
  import opened Wrappers
  import opened Utf8
  import opened Envelope
  import opened ResultCodec
  import opened Coordination

  datatype Options = Options(
    leaseTtl: real, pollInterval: real, maxPollInterval: real, maxAttempts: nat, maxPolls: nat)

  predicate ValidOptions(o: Options) {
    0.0 < o.leaseTtl && 0.0 < o.pollInterval <= o.maxPollInterval && 1 <= o.maxAttempts && 1 <= o.maxPolls
  }

  // ----- the delay between polls -----

  function Pow2(n: nat): (r: real)
    ensures r >= 1.0
  {
    if n == 0 then 1.0 else 2.0 * Pow2(n - 1)
  }

  function Min(a: real, b: real): real {
    if b < a then b else a
  }

  lemma Pow2AtLeast(n: nat)
    ensures Pow2(n) >= n as real
  {
  }

  /** The least `n` with `2^n >= x`: the ceiling of the binary logarithm. */
  function CeilLog2(x: real, from: nat): (n: nat)
    requires 1.0 <= x && (from == 0 || Pow2(from - 1) < x)
    ensures Pow2(n) >= x && (n > 0 ==> Pow2(n - 1) < x)
    decreases (x.Floor + 1) - from
  {
    Pow2AtLeast(from);
    if from > 0 then
      Pow2AtLeast(from - 1);
      if Pow2(from) >= x then from else CeilLog2(x, from + 1)
    else if Pow2(from) >= x then from else CeilLog2(x, from + 1)
  }

  /** The interval times a factor, within the maximum and the time that is left. */
  function Bounded(o: Options, factor: real, remaining: real): real {
    Min(Min(o.pollInterval * factor, o.maxPollInterval), remaining)
  }

  function PollDelay(o: Options, polls: nat, remaining: real): real
    requires ValidOptions(o) && polls >= 1
  {
    var ratio := o.maxPollInterval / o.pollInterval;
    RatioAtLeastOne(o);
    var maxExponent := CeilLog2(ratio, 0);
    var exponent := if polls - 1 <= maxExponent then polls - 1 else maxExponent;
    Bounded(o, Pow2(exponent), remaining)
  }

  lemma RatioAtLeastOne(o: Options)
    requires ValidOptions(o)
    ensures o.maxPollInterval / o.pollInterval >= 1.0
  {
  }

  lemma {:induction false} Pow2Grows(m: nat, n: nat)
    requires m <= n
    ensures Pow2(m) <= Pow2(n)
  {
    if m < n { Pow2Grows(m, n - 1); }
  }

  lemma Scaled(p: real, m: real, x: real)
    requires 0.0 < p && m / p <= x
    ensures m <= p * x
  {
    assert m == p * (m / p);
    assert p * (x - m / p) >= 0.0;
  }

  lemma BeyondMaximum(o: Options, x: real, remaining: real)
    requires ValidOptions(o) && o.maxPollInterval / o.pollInterval <= x
    ensures Bounded(o, x, remaining) == Min(o.maxPollInterval, remaining)
  {
    Scaled(o.pollInterval, o.maxPollInterval, x);
  }

  /** Clamping the exponent keeps the power small and never changes the delay. */
  lemma ClampIsExact(o: Options, polls: nat, remaining: real)
    requires ValidOptions(o) && polls >= 1
    ensures PollDelay(o, polls, remaining) == Bounded(o, Pow2(polls - 1), remaining)
  {
    RatioAtLeastOne(o);
    var ratio := o.maxPollInterval / o.pollInterval;
    var n := CeilLog2(ratio, 0);
    if polls - 1 > n {
      hide Bounded;
      Pow2Grows(n, polls - 1);
      BeyondMaximum(o, Pow2(n), remaining);
      BeyondMaximum(o, Pow2(polls - 1), remaining);
    }
  }

  // ----- the flight and its surroundings -----

  datatype ClaimReply = Won | Taken | ClaimFailed
  datatype LookReply = Saw(snapshot: Snapshot) | LookFailed
  datatype LoadReply = Got(value: Value) | LoadRaised
  datatype EncodeReply = Bytes(bytes: seq<byte>) | EncodeRaised
  datatype OpenReply = Match(value: Value) | Mismatch | OpenRaised
  datatype PublishReply = Accepted | Refused | PublishFailed

  datatype Action =
    | Claimed(token: Text, claim: ClaimReply)
    | Looked(look: LookReply)
    | Slept(delay: real)
    | Ran(load: LoadReply)
    | Published(token: Text, bytes: seq<byte>, publish: PublishReply)
    | Cleaned(token: Text)

  /** `clock` is also given how often it was read. */
  datatype Surroundings = Surroundings(
    clock: (seq<Action>, nat) -> real,
    token: seq<Action> -> Text,
    claim: seq<Action> -> ClaimReply,
    look: seq<Action> -> LookReply,
    load: seq<Action> -> LoadReply,
    encode: (Text, Value) -> EncodeReply,
    open: (seq<byte>, Text) -> OpenReply,
    publish: seq<Action> -> PublishReply,
    jitter: seq<Action> -> real)

  datatype TimeoutCode = DeadlineExceeded | AttemptsExhausted | PollsExhausted

  datatype Outcome =
    | Loaded(value: Value)
    | Reused(value: Value)
    | LeaseLost(value: Value)
    | TimedOut(code: TimeoutCode)
    | InvalidArtifact
    | ProviderFailure
    | EnvelopeFailure
    | LoaderFailure

  datatype Kind = CLAIM | LOOK | SLEEP | RUN | PUBLISH | CLEAN

  function KindOf(a: Action): Kind {
    match a
    case Claimed(_, _) => CLAIM
    case Looked(_) => LOOK
    case Slept(_) => SLEEP
    case Ran(_) => RUN
    case Published(_, _, _) => PUBLISH
    case Cleaned(_) => CLEAN
  }

  function Count(h: seq<Action>, k: Kind): nat {
    if h == [] then 0 else Count(h[..|h| - 1], k) + if KindOf(h[|h| - 1]) == k then 1 else 0
  }

  lemma CountNext(h: seq<Action>, a: Action)
    ensures forall k :: Count(h + [a], k) == Count(h, k) + if KindOf(a) == k then 1 else 0
  {
    assert (h + [a])[..|h|] == h;
  }

  predicate Wins(a: Action) {
    a.Claimed? && a.claim == Won
  }

  /** A flight that has not won: only claims, looks and sleeps. */
  predicate Waiting(h: seq<Action>) {
    forall i :: 0 <= i < |h| ==> !Wins(h[i]) && (h[i].Claimed? || h[i].Looked? || h[i].Slept?)
  }

  /** After winning at the end of `h`, at most: run the loader, publish, clean up. */
  predicate OwnerActions(tail: seq<Action>, token: Text) {
    && |tail| <= 3
    && (forall i :: 0 <= i < |tail| ==>
          || (tail[i].Ran? && i == 0)
          || (tail[i].Published? && tail[i].token == token && i == 1 && tail[0].Ran? && tail[0].load.Got?)
          || (tail[i].Cleaned? && tail[i].token == token && i == |tail| - 1))
  }

  /** The position of the one winning claim. */
  predicate WonAt(h: seq<Action>, w: nat) {
    w < |h| && Waiting(h[..w]) && Wins(h[w])
  }

  // ----- readings of the clock -----

  /** How often the clock is read at once after a claim or a look. */
  function After(h: seq<Action>): nat {
    if h != [] && (h[|h| - 1].Claimed? || h[|h| - 1].Looked?) then 1 else 0
  }

  /** How often it is read between `h` and the next action. */
  function Between(h: seq<Action>, a: Action): nat {
    After(h) +
    match a
    case Claimed(_, _) => 2
    case Looked(_) => 1
    case Slept(_) => 1
    case _ => 0
  }

  /** How often the clock had been read when the last action was taken. */
  function Readings(h: seq<Action>): nat {
    if h == [] then 0 else Readings(h[..|h| - 1]) + Between(h[..|h| - 1], h[|h| - 1])
  }

  lemma ReadingsNext(h: seq<Action>, a: Action)
    ensures Readings(h + [a]) == Readings(h) + Between(h, a)
  {
    assert (h + [a])[..|h|] == h;
  }

  /** The next `n` readings after `h` are before the deadline. */
  ghost predicate InTime(h: seq<Action>, n: nat, s: Surroundings, deadline: real) {
    forall k :: Readings(h) <= k < Readings(h) + n ==> s.clock(h, k) < deadline
  }

  /** The reading after those has reached it. */
  ghost predicate LateAt(h: seq<Action>, n: nat, s: Surroundings, deadline: real) {
    InTime(h, n, s, deadline) && s.clock(h, Readings(h) + n) >= deadline
  }

  /** One of the readings taken between two actions found the deadline reached. */
  ghost predicate Late(h: seq<Action>, s: Surroundings, deadline: real) {
    exists n :: 0 <= n <= 2 && LateAt(h, n, s, deadline)
  }

  // ----- what each action follows -----

  predicate Marked(a: Action) {
    a.Looked? && a.look.Saw? && a.look.snapshot.marker.Some?
  }

  predicate Unmarked(a: Action) {
    a.Looked? && a.look.Saw? && a.look.snapshot.marker.None?
  }

  /** A claim comes first or after a look that showed no marker, a look after a lost
      claim or a sleep, a sleep after a look that showed one. */
  predicate Follows(h: seq<Action>, a: Action) {
    match a
    case Claimed(_, _) => h == [] || Unmarked(h[|h| - 1])
    case Looked(_) => h != [] && ((h[|h| - 1].Claimed? && h[|h| - 1].claim == Taken) || h[|h| - 1].Slept?)
    case Slept(_) => h != [] && Marked(h[|h| - 1])
    case _ => true
  }

  /** The token of a claim and the replies are what the surroundings gave. */
  predicate Given(h: seq<Action>, a: Action, s: Surroundings) {
    match a
    case Claimed(token, claim) => token == s.token(h) && claim == s.claim(h)
    case Looked(look) => look == s.look(h)
    case Ran(load) => load == s.load(h)
    case Published(_, _, publish) => publish == s.publish(h)
    case _ => true
  }

  /** In its turn, with every reading since the last action before the deadline; the
      n-th sleep is the jittered delay of the n-th poll in the time that is left. */
  ghost predicate Due(h: seq<Action>, a: Action, o: Options, s: Surroundings, deadline: real)
    requires ValidOptions(o)
  {
    && Follows(h, a) && Given(h, a, s)
    && (a.Claimed? || a.Looked? || a.Slept? ==> InTime(h, Between(h, a), s, deadline))
    && (a.Slept? ==>
          a.delay == Jittered(h, Count(h, SLEEP) + 1, deadline - s.clock(h, Readings(h) + 1), o, s))
  }

  /** The delay of the poll numbered `polls`, and the jitter that scales it. */
  function Jittered(h: seq<Action>, polls: nat, remaining: real, o: Options, s: Surroundings): real
    requires ValidOptions(o) && polls >= 1
  {
    PollDelay(o, polls, remaining) * s.jitter(h)
  }

  ghost predicate DueAt(h: seq<Action>, i: nat, o: Options, s: Surroundings, deadline: real)
    requires ValidOptions(o) && i < |h|
  {
    Due(h[..i], h[i], o, s, deadline)
  }

  ghost predicate Orderly(h: seq<Action>, o: Options, s: Surroundings, deadline: real)
    requires ValidOptions(o)
  {
    forall i :: 0 <= i < |h| ==> DueAt(h, i, o, s, deadline)
  }

  lemma OrderlyNext(h: seq<Action>, a: Action, o: Options, s: Surroundings, deadline: real)
    requires ValidOptions(o) && Orderly(h, o, s, deadline) && Due(h, a, o, s, deadline)
    ensures Orderly(h + [a], o, s, deadline)
  {
    hide Due;
    var g := h + [a];
    forall i | 0 <= i < |g| ensures DueAt(g, i, o, s, deadline) {
      if i < |h| {
        assert g[..i] == h[..i] && DueAt(h, i, o, s, deadline);
      } else {
        assert g[..i] == h;
      }
    }
  }

  /** Looks that showed a marker. */
  function Markers(h: seq<Action>): nat {
    if h == [] then 0 else Markers(h[..|h| - 1]) + if Marked(h[|h| - 1]) then 1 else 0
  }

  lemma MarkersNext(h: seq<Action>, a: Action)
    ensures Markers(h + [a]) == Markers(h) + if Marked(a) then 1 else 0
  {
    assert (h + [a])[..|h|] == h;
  }

  // ----- outcomes -----

  ghost predicate AllGiven(h: seq<Action>, from: nat, s: Surroundings) {
    forall i :: from <= i < |h| ==> Given(h[..i], h[i], s)
  }

  predicate PublishedFirst(tail: seq<Action>) {
    |tail| >= 2 && tail[1].Published?
  }

  /** What an owner has done and returns once its loader has run: `first` and `second`
      say whether the clock was before the end of its lease after the load and after
      the encoding.  It publishes if and only if there is a value, both are so and the
      value could be encoded. */
  predicate OwnerEnds(tail: seq<Action>, token: Text, first: bool, second: bool, s: Surroundings, r: Outcome) {
    && tail != [] && tail[0].Ran? && OwnerActions(tail, token)
    && match tail[0].load
       case LoadRaised => r == LoaderFailure && tail == [Ran(LoadRaised), Cleaned(token)]
       case Got(v) =>
         var encoded := s.encode(token, v);
         && (PublishedFirst(tail) <==> first && encoded.Bytes? && second)
         && (|tail| == 1 <==> !first || (encoded.Bytes? && !second))
         && (|tail| == 1 ==> r == LeaseLost(v))
         && (r.EnvelopeFailure? <==> first && encoded.EncodeRaised?)
         && (r.EnvelopeFailure? ==> tail == [Ran(Got(v)), Cleaned(token)])
         && (PublishedFirst(tail) ==>
               && encoded == Bytes(tail[1].bytes)
               && match tail[1].publish
                  case Accepted => r == Loaded(v) && |tail| == 2
                  case Refused => r == LeaseLost(v) && |tail| == 2
                  case PublishFailed => r == ProviderFailure && |tail| == 3 && tail[2].Cleaned?)
  }

  /** The owner's part, from the position `w` of its win.  Its lease ends `leaseTtl`
      after the second reading that follows the win; the first decides whether the
      loader runs at all. */
  ghost predicate OwnerOutcome(
    h: seq<Action>, w: nat, o: Options, s: Surroundings, deadline: real, r: Outcome)
  {
    && WonAt(h, w) && AllGiven(h, w + 1, s)
    && var won, tail, token := h[..w + 1], h[w + 1..], h[w].token;
    && var n := Readings(won);
    && var leaseEnd := s.clock(won, n + 1) + o.leaseTtl;
    && if s.clock(won, n) >= deadline then r == TimedOut(DeadlineExceeded) && tail == [Cleaned(token)]
       else
         && tail != []
         && OwnerEnds(tail, token, s.clock(h[..w + 2], n + 2) < leaseEnd, s.clock(h[..w + 2], n + 3) < leaseEnd, s, r)
  }

  lemma OwnerTail(h: seq<Action>, w: nat, o: Options, s: Surroundings, deadline: real, r: Outcome)
    requires OwnerOutcome(h, w, o, s, deadline, r)
    ensures WonAt(h, w) && w < |h| && h[w].Claimed?
    ensures OwnerActions(h[w + 1..], h[w].token) && AllGiven(h, w + 1, s)
  {
  }

  /** Why a flight that won no claim ended as it did. */
  ghost predicate Cause(h: seq<Action>, o: Options, s: Surroundings, deadline: real, r: Outcome) {
    match r
    case TimedOut(DeadlineExceeded) => Late(h, s, deadline)
    case TimedOut(AttemptsExhausted) => Count(h, CLAIM) == o.maxAttempts && InTime(h, After(h) + 1, s, deadline)
    case TimedOut(PollsExhausted) => Markers(h) == o.maxPolls && InTime(h, 1, s, deadline)
    case ProviderFailure => |h| >= 1 && (h[|h| - 1] == Looked(LookFailed) || Fails(h[|h| - 1]))
    case EnvelopeFailure => JustLooked(h, s, deadline) && Unreadable(h[|h| - 1].look, s)
    case InvalidArtifact => JustLooked(h, s, deadline) && Invalid(h[|h| - 1].look)
    case Reused(v) => JustLooked(h, s, deadline) && ReusedFrom(h[|h| - 1].look, s, v)
    case _ => false
  }

  ghost predicate JustLooked(h: seq<Action>, s: Surroundings, deadline: real) {
    |h| >= 1 && h[|h| - 1].Looked? && InTime(h, 1, s, deadline)
  }

  predicate Fails(a: Action) {
    a.Claimed? && a.claim == ClaimFailed
  }

  /** The waiting part, when no claim was won. */
  ghost predicate WaiterOutcome(h: seq<Action>, o: Options, s: Surroundings, deadline: real, r: Outcome) {
    Waiting(h) && Cause(h, o, s, deadline, r)
  }

  /** The value comes from a completed marker's result, found under its token. */
  predicate ReusedFrom(look: LookReply, s: Surroundings, v: Value) {
    && look.Saw? && !look.snapshot.markerOversized && !look.snapshot.resultOversized
    && look.snapshot.marker.Some? && look.snapshot.result.Some?
    && var m := ParseMarker(look.snapshot.marker.value);
       m.Some? && m.value.0 == COMPLETED && s.open(look.snapshot.result.value, m.value.1) == Match(v)
  }

  ghost predicate Reusable(look: LookReply, s: Surroundings) {
    exists v :: ReusedFrom(look, s, v)
  }

  /** No look so far had anything to reuse. */
  ghost predicate NothingReused(h: seq<Action>, s: Surroundings) {
    forall i :: 0 <= i < |h| && h[i].Looked? ==> !Reusable(h[i].look, s)
  }

  /** A reusable look is the last action: the flight reuses it, or was too late. */
  ghost predicate ReusesFirst(h: seq<Action>, s: Surroundings, deadline: real, r: Outcome) {
    forall i :: 0 <= i < |h| && h[i].Looked? && Reusable(h[i].look, s) ==>
      i == |h| - 1 && (r.Reused? || Late(h, s, deadline))
  }

  /** A completed marker's result that cannot be opened. */
  predicate Unreadable(look: LookReply, s: Surroundings) {
    && look.Saw? && !look.snapshot.markerOversized && !look.snapshot.resultOversized
    && look.snapshot.marker.Some? && look.snapshot.result.Some?
    && var m := ParseMarker(look.snapshot.marker.value);
       m.Some? && m.value.0 == COMPLETED && s.open(look.snapshot.result.value, m.value.1) == OpenRaised
  }

  predicate Invalid(look: LookReply) {
    && look.Saw?
    && var n := look.snapshot;
       || n.markerOversized || n.resultOversized
       || (n.marker.Some? && ParseMarker(n.marker.value).None?)
       || (n.marker.Some? && ParseMarker(n.marker.value).Some? && ParseMarker(n.marker.value).value.0 == COMPLETED &&
             n.result.None?)
  }

  datatype Inspection = NoMarker | KeepPolling | Ends(outcome: Outcome)

  /** What the poll loop makes of a snapshot. */
  method Inspect(s: Surroundings, snapshot: Snapshot) returns (r: Inspection)
    ensures r.NoMarker? <==> !snapshot.markerOversized && !snapshot.resultOversized && snapshot.marker.None?
    ensures r == Ends(InvalidArtifact) <==> Invalid(Saw(snapshot))
    ensures r == Ends(EnvelopeFailure) <==> Unreadable(Saw(snapshot), s)
    ensures forall v :: r == Ends(Reused(v)) <==> ReusedFrom(Saw(snapshot), s, v)
    ensures r.Ends? ==> r.outcome.InvalidArtifact? || r.outcome.EnvelopeFailure? || r.outcome.Reused?
    ensures r.KeepPolling? ==> snapshot.marker.Some?
    ensures (r.Ends? && r.outcome.Reused?) || !Reusable(Saw(snapshot), s)
  {
    hide ParseMarker;
    if snapshot.markerOversized || snapshot.resultOversized { return Ends(InvalidArtifact); }
    if snapshot.marker.None? { return NoMarker; }
    var marker := ParseMarker(snapshot.marker.value);
    if marker.None? { return Ends(InvalidArtifact); }
    if marker.value.0 == COMPLETED {
      if snapshot.result.None? { return Ends(InvalidArtifact); }
      var reuse := s.open(snapshot.result.value, marker.value.1);
      if reuse.OpenRaised? { return Ends(EnvelopeFailure); }
      if reuse.Match? { return Ends(Reused(reuse.value)); }
    }
    r := KeepPolling;
  }

  lemma FailedLook(s: Surroundings)
    ensures !Reusable(LookFailed, s)
  {
  }

  lemma WaitMore(h: seq<Action>, a: Action)
    requires Waiting(h) && !Wins(a) && (a.Claimed? || a.Looked? || a.Slept?)
    ensures Waiting(h + [a])
  {
  }

  lemma ReadLate(h: seq<Action>, n: nat, s: Surroundings, deadline: real)
    requires n <= 2 && InTime(h, n, s, deadline) && s.clock(h, Readings(h) + n) >= deadline
    ensures Late(h, s, deadline)
  {
    assert LateAt(h, n, s, deadline);
  }

  lemma ReadNone(h: seq<Action>, s: Surroundings, deadline: real)
    ensures InTime(h, 0, s, deadline)
  {
  }

  /** A history that `tail` was added to. */
  lemma Extends(h: seq<Action>, tail: seq<Action>, s: Surroundings)
    requires 1 <= |tail| <= 3 && forall i :: 0 <= i < |tail| ==> Given(h + tail[..i], tail[i], s)
    ensures var g := h + tail;
      && |h| < |g| && g[..|h|] == h && g[|h|..] == tail && g[..|h| + 1] == h + tail[..1]
      && AllGiven(g, |h|, s)
  {
    hide Given;
    var g := h + tail;
    forall i | |h| <= i < |g| ensures Given(g[..i], g[i], s) {
      assert g[..i] == h + tail[..i - |h|] && g[i] == tail[i - |h|];
    }
  }

  method RunOwner(s: Surroundings, token: Text, leaseDeadline: real, h0: seq<Action>, readings0: nat)
    returns (r: Outcome, h: seq<Action>)
    ensures |h0| < |h| && h[..|h0|] == h0 && AllGiven(h, |h0|, s)
    ensures OwnerEnds(h[|h0|..], token, s.clock(h[..|h0| + 1], readings0) < leaseDeadline,
      s.clock(h[..|h0| + 1], readings0 + 1) < leaseDeadline, s, r)
  {
    hide AllGiven;
    var readings := readings0;
    var load := s.load(h0);
    var tail := [Ran(load)];
    assert h0 + [] == h0 && tail[..0] == [] && tail[..1] == tail;
    if load.LoadRaised? {
      tail := tail + [Cleaned(token)];
      Extends(h0, tail, s);
      return LoaderFailure, h0 + tail;
    }
    var now := s.clock(h0 + tail, readings);
    readings := readings + 1;
    if now >= leaseDeadline {
      Extends(h0, tail, s);
      return LeaseLost(load.value), h0 + tail;
    }
    var encoded := s.encode(token, load.value);
    if encoded.EncodeRaised? {
      tail := tail + [Cleaned(token)];
      Extends(h0, tail, s);
      return EnvelopeFailure, h0 + tail;
    }
    now := s.clock(h0 + tail, readings);
    if now >= leaseDeadline {
      Extends(h0, tail, s);
      return LeaseLost(load.value), h0 + tail;
    }
    var publish := s.publish(h0 + tail);
    tail := tail + [Published(token, encoded.bytes, publish)];
    assert tail[..0] == [] && tail[..1] == [Ran(load)];
    if publish.PublishFailed? {
      ghost var published := tail;
      tail := tail + [Cleaned(token)];
      assert tail[..0] == [] && tail[..1] == [Ran(load)] && tail[..2] == published;
      Extends(h0, tail, s);
      return ProviderFailure, h0 + tail;
    }
    Extends(h0, tail, s);
    if publish.Refused? { return LeaseLost(load.value), h0 + tail; }
    return Loaded(load.value), h0 + tail;
  }

  // ----- the loop's bookkeeping -----

  /** Nothing won and nothing reusable seen so far, with these counts. */
  ghost predicate Underway(
    h: seq<Action>, attempts: nat, sleeps: nat, looks: nat, o: Options, s: Surroundings, deadline: real)
    requires ValidOptions(o)
  {
    && Waiting(h) && Orderly(h, o, s, deadline) && NothingReused(h, s)
    && Count(h, CLAIM) == attempts && Count(h, SLEEP) == sleeps && Count(h, LOOK) == looks
  }

  /** What a whole flight keeps to. */
  ghost predicate Flown(
    h: seq<Action>, attempts: nat, polls: nat, o: Options, s: Surroundings, deadline: real, r: Outcome)
    requires ValidOptions(o)
  {
    && attempts == Count(h, CLAIM) <= o.maxAttempts && polls <= o.maxPolls && Count(h, LOOK) <= attempts + polls
    && polls <= Markers(h) <= polls + 1
    && (WaiterOutcome(h, o, s, deadline, r) || exists w :: OwnerOutcome(h, w, o, s, deadline, r))
    && Orderly(h, o, s, deadline) && ReusesFirst(h, s, deadline, r)
  }

  lemma UnderwayNext(
    h: seq<Action>, a: Action, attempts: nat, sleeps: nat, looks: nat, o: Options, s: Surroundings, deadline: real)
    requires ValidOptions(o) && Underway(h, attempts, sleeps, looks, o, s, deadline)
    requires !Wins(a) && (a.Claimed? || a.Looked? || a.Slept?)
    requires (a.Looked? ==> !Reusable(a.look, s)) && Due(h, a, o, s, deadline)
    ensures Underway(
      h + [a], if a.Claimed? then attempts + 1 else attempts, if a.Slept? then sleeps + 1 else sleeps,
      if a.Looked? then looks + 1 else looks, o, s, deadline)
  {
    hide Count, Orderly, Due, Reusable;
    CountNext(h, a);
    OrderlyNext(h, a, o, s, deadline);
    WaitMore(h, a);
  }

  lemma WaitedOut(
    h: seq<Action>, attempts: nat, sleeps: nat, looks: nat, polls: nat, o: Options, s: Surroundings,
    deadline: real, r: Outcome)
    requires ValidOptions(o) && Underway(h, attempts, sleeps, looks, o, s, deadline)
    requires attempts <= o.maxAttempts && polls <= o.maxPolls && looks <= attempts + polls && Markers(h) == polls
    requires Cause(h, o, s, deadline, r)
    ensures Flown(h, attempts, polls, o, s, deadline, r)
  {
    hide Count, Orderly, Cause, Reusable, Late, Markers;
  }

  /** The flight ends with a look, the one that may have something to reuse. */
  lemma LookEnds(
    h: seq<Action>, look: LookReply, attempts: nat, sleeps: nat, looks: nat, polls: nat, o: Options, s: Surroundings,
    deadline: real, r: Outcome)
    requires ValidOptions(o) && Underway(h, attempts, sleeps, looks, o, s, deadline)
    requires attempts <= o.maxAttempts && polls <= o.maxPolls && looks + 1 <= attempts + polls && Markers(h) == polls
    requires Due(h, Looked(look), o, s, deadline) && Cause(h + [Looked(look)], o, s, deadline, r)
    requires r.Reused? || Late(h + [Looked(look)], s, deadline) || !Reusable(look, s)
    ensures Flown(h + [Looked(look)], attempts, polls, o, s, deadline, r)
  {
    hide Count, Orderly, Cause, Reusable, Late, Due, Markers;
    CountNext(h, Looked(look));
    MarkersNext(h, Looked(look));
    OrderlyNext(h, Looked(look), o, s, deadline);
    WaitMore(h, Looked(look));
  }

  lemma WonTooLate(won: seq<Action>, o: Options, s: Surroundings, deadline: real)
    requires won != [] && WonAt(won, |won| - 1) && s.clock(won, Readings(won)) >= deadline
    ensures var h := won + [Cleaned(won[|won| - 1].token)];
      h[..|won|] == won && OwnerOutcome(h, |won| - 1, o, s, deadline, TimedOut(DeadlineExceeded))
  {
    hide Readings;
    var h := won + [Cleaned(won[|won| - 1].token)];
    assert h[..|won| - 1] == won[..|won| - 1] && h[..|won|] == won && h[|won|..] == [Cleaned(won[|won| - 1].token)];
  }

  lemma WonInTime(won: seq<Action>, h: seq<Action>, o: Options, s: Surroundings, deadline: real, r: Outcome)
    requires won != [] && WonAt(won, |won| - 1) && |won| < |h| && h[..|won|] == won && AllGiven(h, |won|, s)
    requires s.clock(won, Readings(won)) < deadline
    requires var leaseEnd := s.clock(won, Readings(won) + 1) + o.leaseTtl;
      OwnerEnds(h[|won|..], won[|won| - 1].token, s.clock(h[..|won| + 1], Readings(won) + 2) < leaseEnd,
        s.clock(h[..|won| + 1], Readings(won) + 3) < leaseEnd, s, r)
    ensures OwnerOutcome(h, |won| - 1, o, s, deadline, r)
  {
    hide Readings, OwnerEnds, WonAt, AllGiven;
    var w := |won| - 1;
    assert WonAt(h, w) by { WonStill(won, h); }
    assert h[..w + 1] == won && h[w] == won[w];
    assert w + 1 == |won| && w + 2 == |won| + 1;
  }

  lemma WonStill(won: seq<Action>, h: seq<Action>)
    requires won != [] && WonAt(won, |won| - 1) && |won| <= |h| && h[..|won|] == won
    ensures WonAt(h, |won| - 1)
  {
    hide Waiting;
    assert h[..|won| - 1] == won[..|won| - 1] && h[|won| - 1] == won[|won| - 1];
  }

  lemma OwnerFlown(
    before: seq<Action>, win: Action, h: seq<Action>, attempts: nat, sleeps: nat, looks: nat, polls: nat, o: Options,
    s: Surroundings, deadline: real, r: Outcome)
    requires ValidOptions(o) && Underway(before, attempts, sleeps, looks, o, s, deadline) && Wins(win)
    requires attempts < o.maxAttempts && polls <= o.maxPolls && looks <= attempts + polls && Markers(before) == polls
    requires Due(before, win, o, s, deadline)
    requires |before| < |h| && h[..|before| + 1] == before + [win] && OwnerOutcome(h, |before|, o, s, deadline, r)
    ensures Flown(h, attempts + 1, polls, o, s, deadline, r)
  {
    hide Count, Orderly, Reusable, Late, Due, OwnerOutcome, Markers;
    var won := before + [win];
    CountNext(before, win);
    MarkersNext(before, win);
    OrderlyNext(before, win, o, s, deadline);
    OwnerTail(h, |before|, o, s, deadline, r);
    OwnerCounts(won, h, h[|before|].token);
    OwnerOrderly(won, h, h[|before|].token, o, s, deadline);
    forall i | 0 <= i < |h| && h[i].Looked? ensures !Reusable(h[i].look, s) {
      if i < |won| {
        assert h[i] == won[i] && i < |before|;
        assert h[i] == before[i];
      } else {
        assert false;
      }
    }
  }

  // ----- the two places the loop comes back to -----

  /** What the flight has counted: claims, polls, looks and readings of the clock. */
  datatype Tally = Tally(attempts: nat, polls: nat, looks: nat, readings: nat)

  ghost predicate Counted(h: seq<Action>, t: Tally, o: Options, s: Surroundings, deadline: real)
    requires ValidOptions(o)
  {
    && Underway(h, t.attempts, t.polls, t.looks, o, s, deadline) && Markers(h) == t.polls
    && t.attempts <= o.maxAttempts && t.polls < o.maxPolls && t.looks <= t.attempts + t.polls
    && t.readings == Readings(h) + After(h) && InTime(h, After(h), s, deadline)
  }

  /** About to claim. */
  ghost predicate AtClaim(h: seq<Action>, t: Tally, o: Options, s: Surroundings, deadline: real)
    requires ValidOptions(o)
  {
    Counted(h, t, o, s, deadline) && (h == [] || Unmarked(h[|h| - 1]))
  }

  /** About to look. */
  ghost predicate AtLook(h: seq<Action>, t: Tally, o: Options, s: Surroundings, deadline: real)
    requires ValidOptions(o)
  {
    Counted(h, t, o, s, deadline) && t.looks < t.attempts + t.polls && Follows(h, Looked(LookFailed))
  }

  lemma AtStart(o: Options, s: Surroundings, deadline: real)
    requires ValidOptions(o)
    ensures AtClaim([], Tally(0, 0, 0, 0), o, s, deadline)
  {
  }

  /** The clock stops the flight at the reading numbered `n` from here. */
  lemma TooLate(h: seq<Action>, t: Tally, n: nat, o: Options, s: Surroundings, deadline: real)
    requires ValidOptions(o) && Counted(h, t, o, s, deadline) && n <= 1
    requires (n == 1 ==> s.clock(h, t.readings) < deadline) && s.clock(h, t.readings + n) >= deadline
    ensures Flown(h, t.attempts, t.polls, o, s, deadline, TimedOut(DeadlineExceeded))
  {
    hide Underway, Late, Flown, Markers, Readings;
    assert InTime(h, After(h) + n, s, deadline);
    ReadLate(h, After(h) + n, s, deadline);
    WaitedOut(h, t.attempts, t.polls, t.looks, t.polls, o, s, deadline, TimedOut(DeadlineExceeded));
  }

  lemma OutOfAttempts(h: seq<Action>, t: Tally, o: Options, s: Surroundings, deadline: real)
    requires ValidOptions(o) && Counted(h, t, o, s, deadline)
    requires t.attempts == o.maxAttempts && s.clock(h, t.readings) < deadline
    ensures Flown(h, t.attempts, t.polls, o, s, deadline, TimedOut(AttemptsExhausted))
  {
    hide Underway, Flown, Markers, Readings, Count;
    assert InTime(h, After(h) + 1, s, deadline);
    UnderwayCounts(h, t.attempts, t.polls, t.looks, o, s, deadline);
    WaitedOut(h, t.attempts, t.polls, t.looks, t.polls, o, s, deadline, TimedOut(AttemptsExhausted));
  }

  /** A claim is due: both readings before it were in time. */
  predicate MayClaim(h: seq<Action>, t: Tally, o: Options, s: Surroundings, deadline: real) {
    t.attempts < o.maxAttempts && s.clock(h, t.readings) < deadline && s.clock(h, t.readings + 1) < deadline
  }

  lemma Claims(h: seq<Action>, t: Tally, a: Action, o: Options, s: Surroundings, deadline: real)
    requires ValidOptions(o) && AtClaim(h, t, o, s, deadline) && MayClaim(h, t, o, s, deadline) && a.Claimed?
    requires Given(h, a, s)
    ensures Due(h, a, o, s, deadline) && Readings(h + [a]) == t.readings + 2
  {
    hide Underway, Markers, Readings;
    ReadingsNext(h, a);
    assert InTime(h, After(h) + 2, s, deadline);
  }

  lemma ClaimFails(h: seq<Action>, t: Tally, a: Action, o: Options, s: Surroundings, deadline: real)
    requires ValidOptions(o) && AtClaim(h, t, o, s, deadline) && MayClaim(h, t, o, s, deadline) && Fails(a)
    requires Given(h, a, s)
    ensures Flown(h + [a], t.attempts + 1, t.polls, o, s, deadline, ProviderFailure)
  {
    hide Underway, Flown, Due, Markers, Readings, InTime;
    Claims(h, t, a, o, s, deadline);
    UnderwayNext(h, a, t.attempts, t.polls, t.looks, o, s, deadline);
    MarkersNext(h, a);
    WaitedOut(h + [a], t.attempts + 1, t.polls, t.looks, t.polls, o, s, deadline, ProviderFailure);
  }

  /** A lost claim: the flight goes on to look, unless the clock stops it first. */
  lemma ClaimLost(h: seq<Action>, t: Tally, a: Action, o: Options, s: Surroundings, deadline: real)
    requires ValidOptions(o) && AtClaim(h, t, o, s, deadline) && MayClaim(h, t, o, s, deadline)
    requires a.Claimed? && a.claim == Taken && Given(h, a, s)
    ensures s.clock(h + [a], t.readings + 2) >= deadline ==>
      Flown(h + [a], t.attempts + 1, t.polls, o, s, deadline, TimedOut(DeadlineExceeded))
    ensures s.clock(h + [a], t.readings + 2) < deadline ==>
      AtLook(h + [a], Tally(t.attempts + 1, t.polls, t.looks, t.readings + 3), o, s, deadline)
  {
    hide Underway, Flown, Due, Markers, Readings, Late;
    Claims(h, t, a, o, s, deadline);
    UnderwayNext(h, a, t.attempts, t.polls, t.looks, o, s, deadline);
    MarkersNext(h, a);
    if s.clock(h + [a], t.readings + 2) >= deadline {
      ReadLate(h + [a], 0, s, deadline);
      WaitedOut(h + [a], t.attempts + 1, t.polls, t.looks, t.polls, o, s, deadline, TimedOut(DeadlineExceeded));
    }
  }

  lemma ClaimWonLate(h: seq<Action>, t: Tally, a: Action, o: Options, s: Surroundings, deadline: real)
    requires ValidOptions(o) && AtClaim(h, t, o, s, deadline) && MayClaim(h, t, o, s, deadline) && Wins(a)
    requires s.clock(h + [a], t.readings + 2) >= deadline && Given(h, a, s)
    ensures Flown(h + [a] + [Cleaned(a.token)], t.attempts + 1, t.polls, o, s, deadline, TimedOut(DeadlineExceeded))
  {
    hide Underway, Flown, Due, Markers, Readings, InTime, OwnerOutcome, WonAt;
    Claims(h, t, a, o, s, deadline);
    WinAtEnd(h, t.attempts, t.polls, t.looks, o, s, deadline, a);
    WonTooLate(h + [a], o, s, deadline);
    OwnerFlown(h, a, h + [a] + [Cleaned(a.token)], t.attempts, t.polls, t.looks, t.polls, o, s, deadline,
      TimedOut(DeadlineExceeded));
  }

  lemma ClaimWon(
    h: seq<Action>, t: Tally, a: Action, g: seq<Action>, o: Options, s: Surroundings, deadline: real, r: Outcome)
    requires ValidOptions(o) && AtClaim(h, t, o, s, deadline) && MayClaim(h, t, o, s, deadline) && Wins(a)
    requires s.clock(h + [a], t.readings + 2) < deadline && Given(h, a, s)
    requires |h| + 1 < |g| && g[..|h| + 1] == h + [a] && AllGiven(g, |h| + 1, s)
    requires var leaseEnd := s.clock(h + [a], t.readings + 3) + o.leaseTtl;
      OwnerEnds(g[|h| + 1..], a.token, s.clock(g[..|h| + 2], t.readings + 4) < leaseEnd,
        s.clock(g[..|h| + 2], t.readings + 5) < leaseEnd, s, r)
    ensures Flown(g, t.attempts + 1, t.polls, o, s, deadline, r)
  {
    hide Underway, Flown, Due, Markers, Readings, InTime, OwnerOutcome, OwnerEnds, WonAt, AllGiven;
    Claims(h, t, a, o, s, deadline);
    WinAtEnd(h, t.attempts, t.polls, t.looks, o, s, deadline, a);
    WonInTime(h + [a], g, o, s, deadline, r);
    OwnerFlown(h, a, g, t.attempts, t.polls, t.looks, t.polls, o, s, deadline, r);
  }

  lemma Looks(h: seq<Action>, t: Tally, look: LookReply, o: Options, s: Surroundings, deadline: real)
    requires ValidOptions(o) && AtLook(h, t, o, s, deadline) && s.clock(h, t.readings) < deadline
    requires look == s.look(h)
    ensures Due(h, Looked(look), o, s, deadline) && Readings(h + [Looked(look)]) == t.readings + 1
  {
    hide Underway, Markers, Readings;
    ReadingsNext(h, Looked(look));
    assert InTime(h, After(h) + 1, s, deadline);
  }

  lemma LookFails(h: seq<Action>, t: Tally, o: Options, s: Surroundings, deadline: real)
    requires ValidOptions(o) && AtLook(h, t, o, s, deadline) && s.clock(h, t.readings) < deadline
    requires s.look(h) == LookFailed
    ensures Flown(h + [Looked(LookFailed)], t.attempts, t.polls, o, s, deadline, ProviderFailure)
  {
    hide Flown, Underway, Due, Reusable, Markers, Readings, InTime;
    Looks(h, t, LookFailed, o, s, deadline);
    FailedLook(s);
    LookEnds(h, LookFailed, t.attempts, t.polls, t.looks, t.polls, o, s, deadline, ProviderFailure);
  }

  lemma LookedTooLate(h: seq<Action>, t: Tally, look: LookReply, o: Options, s: Surroundings, deadline: real)
    requires ValidOptions(o) && AtLook(h, t, o, s, deadline) && s.clock(h, t.readings) < deadline
    requires s.clock(h + [Looked(look)], t.readings + 1) >= deadline && look == s.look(h)
    ensures Flown(h + [Looked(look)], t.attempts, t.polls, o, s, deadline, TimedOut(DeadlineExceeded))
  {
    hide Flown, Underway, Due, Reusable, Late, InTime, Markers, Readings;
    Looks(h, t, look, o, s, deadline);
    ReadNone(h + [Looked(look)], s, deadline);
    ReadLate(h + [Looked(look)], 0, s, deadline);
    LookEnds(h, look, t.attempts, t.polls, t.looks, t.polls, o, s, deadline, TimedOut(DeadlineExceeded));
  }

  /** The look was answered, in time. */
  predicate Sees(h: seq<Action>, t: Tally, a: Action, s: Surroundings, deadline: real) {
    && a.Looked? && a.look.Saw? && a.look == s.look(h)
    && s.clock(h, t.readings) < deadline && s.clock(h + [a], t.readings + 1) < deadline
  }

  lemma Finds(h: seq<Action>, t: Tally, a: Action, r: Outcome, o: Options, s: Surroundings, deadline: real)
    requires ValidOptions(o) && AtLook(h, t, o, s, deadline) && Sees(h, t, a, s, deadline)
    requires r.Reused? || !Reusable(a.look, s)
    requires match r
      case InvalidArtifact => Invalid(a.look)
      case EnvelopeFailure => Unreadable(a.look, s)
      case Reused(v) => ReusedFrom(a.look, s, v)
      case _ => false
    ensures Flown(h + [a], t.attempts, t.polls, o, s, deadline, r)
  {
    hide Flown, Underway, Due, Reusable, Late, Invalid, Unreadable, ReusedFrom, Markers, Readings;
    Looks(h, t, a.look, o, s, deadline);
    assert InTime(h + [a], 1, s, deadline);
    LookEnds(h, a.look, t.attempts, t.polls, t.looks, t.polls, o, s, deadline, r);
  }

  lemma LooksOn(h: seq<Action>, t: Tally, a: Action, o: Options, s: Surroundings, deadline: real)
    requires ValidOptions(o) && AtLook(h, t, o, s, deadline) && Sees(h, t, a, s, deadline) && !Reusable(a.look, s)
    ensures Underway(h + [a], t.attempts, t.polls, t.looks + 1, o, s, deadline)
    ensures Markers(h + [a]) == t.polls + if Marked(a) then 1 else 0
    ensures Readings(h + [a]) == t.readings + 1 && InTime(h + [a], 1, s, deadline)
  {
    hide Underway, Due, Reusable, Markers, Readings;
    Looks(h, t, a.look, o, s, deadline);
    UnderwayNext(h, a, t.attempts, t.polls, t.looks, o, s, deadline);
    MarkersNext(h, a);
  }

  lemma ClaimsAgain(h: seq<Action>, t: Tally, a: Action, o: Options, s: Surroundings, deadline: real)
    requires ValidOptions(o) && AtLook(h, t, o, s, deadline) && Sees(h, t, a, s, deadline)
    requires Unmarked(a) && !Reusable(a.look, s)
    ensures AtClaim(h + [a], Tally(t.attempts, t.polls, t.looks + 1, t.readings + 2), o, s, deadline)
  {
    hide Underway, Due, Reusable, Markers, Readings, InTime;
    LooksOn(h, t, a, o, s, deadline);
  }

  /** A marker to wait for: the flight stops, or sleeps and looks again. */
  lemma PollsOn(h: seq<Action>, t: Tally, a: Action, o: Options, s: Surroundings, deadline: real)
    requires ValidOptions(o) && AtLook(h, t, o, s, deadline) && Sees(h, t, a, s, deadline)
    requires Marked(a) && !Reusable(a.look, s)
    ensures t.polls + 1 == o.maxPolls ==>
      Flown(h + [a], t.attempts, o.maxPolls, o, s, deadline, TimedOut(PollsExhausted))
    ensures t.polls + 1 < o.maxPolls && s.clock(h + [a], t.readings + 2) >= deadline ==>
      Flown(h + [a], t.attempts, t.polls + 1, o, s, deadline, TimedOut(DeadlineExceeded))
    ensures t.polls + 1 < o.maxPolls && s.clock(h + [a], t.readings + 2) < deadline ==>
      var delay := Jittered(h + [a], t.polls + 1, deadline - s.clock(h + [a], t.readings + 2), o, s);
      AtLook(h + [a] + [Slept(delay)], Tally(t.attempts, t.polls + 1, t.looks + 1, t.readings + 3), o, s, deadline)
  {
    hide Underway, Flown, Due, Reusable, Markers, Readings, Late, Jittered;
    LooksOn(h, t, a, o, s, deadline);
    if t.polls + 1 == o.maxPolls {
      WaitedOut(h + [a], t.attempts, t.polls, t.looks + 1, t.polls + 1, o, s, deadline, TimedOut(PollsExhausted));
    } else if s.clock(h + [a], t.readings + 2) >= deadline {
      ReadLate(h + [a], 1, s, deadline);
      WaitedOut(h + [a], t.attempts, t.polls, t.looks + 1, t.polls + 1, o, s, deadline, TimedOut(DeadlineExceeded));
    } else {
      Sleeps(h + [a], t, o, s, deadline);
    }
  }

  lemma Sleeps(h: seq<Action>, t: Tally, o: Options, s: Surroundings, deadline: real)
    requires ValidOptions(o) && Underway(h, t.attempts, t.polls, t.looks + 1, o, s, deadline)
    requires h != [] && Marked(h[|h| - 1]) && Markers(h) == t.polls + 1 < o.maxPolls
    requires t.attempts <= o.maxAttempts && t.looks < t.attempts + t.polls
    requires Readings(h) == t.readings + 1 && InTime(h, 1, s, deadline) && s.clock(h, t.readings + 2) < deadline
    ensures var delay := Jittered(h, t.polls + 1, deadline - s.clock(h, t.readings + 2), o, s);
      AtLook(h + [Slept(delay)], Tally(t.attempts, t.polls + 1, t.looks + 1, t.readings + 3), o, s, deadline)
  {
    hide Underway, Markers, Readings, Jittered, Count;
    var delay := Jittered(h, t.polls + 1, deadline - s.clock(h, t.readings + 2), o, s);
    UnderwayCounts(h, t.attempts, t.polls, t.looks + 1, o, s, deadline);
    assert InTime(h, 2, s, deadline);
    UnderwayNext(h, Slept(delay), t.attempts, t.polls, t.looks + 1, o, s, deadline);
    MarkersNext(h, Slept(delay));
    ReadingsNext(h, Slept(delay));
  }

  /** Whatever the surroundings do, the flight ends, and within its budgets: at
      most `maxAttempts` claims and `maxAttempts + maxPolls` looks. */
  method RunFlight(s: Surroundings, o: Options, deadline: real)
    returns (r: Outcome, h: seq<Action>, attempts: nat, polls: nat)
    requires ValidOptions(o)
    ensures Flown(h, attempts, polls, o, s, deadline, r)
  {
    hide Jittered, OwnerEnds, Invalid, ReusedFrom, Unreadable, Reusable, Flown, Counted, Follows;
    h, attempts, polls := [], 0, 0;
    AtStart(o, s, deadline);
    ghost var looks := 0;
    var readings := 0;
    while true
      invariant AtClaim(h, Tally(attempts, polls, looks, readings), o, s, deadline)
      invariant attempts <= o.maxAttempts && polls < o.maxPolls
      decreases o.maxAttempts - attempts
    {
      ghost var t, before := Tally(attempts, polls, looks, readings), h;
      var now := s.clock(h, readings);
      readings := readings + 1;
      if now >= deadline {
        TooLate(h, t, 0, o, s, deadline);
        return TimedOut(DeadlineExceeded), h, attempts, polls;
      }
      if attempts >= o.maxAttempts {
        OutOfAttempts(h, t, o, s, deadline);
        return TimedOut(AttemptsExhausted), h, attempts, polls;
      }
      var token := s.token(h);
      now := s.clock(h, readings);
      readings := readings + 1;
      if now >= deadline {
        TooLate(h, t, 1, o, s, deadline);
        return TimedOut(DeadlineExceeded), h, attempts, polls;
      }
      attempts := attempts + 1;
      var claim := s.claim(h);
      h := h + [Claimed(token, claim)];
      if claim == Won {
        now := s.clock(h, readings);
        readings := readings + 1;
        if now >= deadline {
          ClaimWonLate(before, t, Claimed(token, claim), o, s, deadline);
          return TimedOut(DeadlineExceeded), h + [Cleaned(token)], attempts, polls;
        }
        now := s.clock(h, readings);
        readings := readings + 1;
        r, h := RunOwner(s, token, now + o.leaseTtl, h, readings);
        ClaimWon(before, t, Claimed(token, claim), h, o, s, deadline, r);
        return;
      }
      if claim == ClaimFailed {
        ClaimFails(before, t, Claimed(token, claim), o, s, deadline);
        return ProviderFailure, h, attempts, polls;
      }
      ClaimLost(before, t, Claimed(token, claim), o, s, deadline);
      now := s.clock(h, readings);
      readings := readings + 1;
      if now >= deadline { return TimedOut(DeadlineExceeded), h, attempts, polls; }
      var searching := true;
      while searching
        invariant searching ==> AtLook(h, Tally(attempts, polls, looks, readings), o, s, deadline)
        invariant !searching ==> AtClaim(h, Tally(attempts, polls, looks, readings), o, s, deadline)
        invariant attempts <= o.maxAttempts && polls < o.maxPolls
        decreases o.maxPolls - polls, searching
      {
        t, before := Tally(attempts, polls, looks, readings), h;
        now := s.clock(h, readings);
        readings := readings + 1;
        if now >= deadline {
          TooLate(h, t, 0, o, s, deadline);
          return TimedOut(DeadlineExceeded), h, attempts, polls;
        }
        var look := s.look(h);
        h := h + [Looked(look)];
        if look.LookFailed? {
          LookFails(before, t, o, s, deadline);
          return ProviderFailure, h, attempts, polls;
        }
        now := s.clock(h, readings);
        readings := readings + 1;
        if now >= deadline {
          LookedTooLate(before, t, look, o, s, deadline);
          return TimedOut(DeadlineExceeded), h, attempts, polls;
        }
        var found := Inspect(s, look.snapshot);
        if found.Ends? {
          Finds(before, t, Looked(look), found.outcome, o, s, deadline);
          return found.outcome, h, attempts, polls;
        }
        looks := looks + 1;
        if found.NoMarker? {
          ClaimsAgain(before, t, Looked(look), o, s, deadline);
          searching := false;
        } else {
          PollsOn(before, t, Looked(look), o, s, deadline);
          polls := polls + 1;
          if polls >= o.maxPolls { return TimedOut(PollsExhausted), h, attempts, polls; }
          now := s.clock(h, readings);
          readings := readings + 1;
          if deadline - now <= 0.0 { return TimedOut(DeadlineExceeded), h, attempts, polls; }
          h := h + [Slept(Jittered(h, polls, deadline - now, o, s))];
        }
      }
    }
  }

  lemma UnderwayCounts(
    h: seq<Action>, attempts: nat, sleeps: nat, looks: nat, o: Options, s: Surroundings, deadline: real)
    requires ValidOptions(o) && Underway(h, attempts, sleeps, looks, o, s, deadline)
    ensures Count(h, CLAIM) == attempts && Count(h, SLEEP) == sleeps
  {
  }

  lemma WinAtEnd(
    h: seq<Action>, attempts: nat, sleeps: nat, looks: nat, o: Options, s: Surroundings, deadline: real, a: Action)
    requires ValidOptions(o) && Underway(h, attempts, sleeps, looks, o, s, deadline) && Wins(a)
    ensures WonAt(h + [a], |h|)
  {
    assert (h + [a])[..|h|] == h;
  }

  /** The owner neither claims, looks nor sleeps. */
  lemma OwnerOrderly(won: seq<Action>, h: seq<Action>, token: Text, o: Options, s: Surroundings, deadline: real)
    requires ValidOptions(o) && Orderly(won, o, s, deadline)
    requires |won| <= |h| && h[..|won|] == won && OwnerActions(h[|won|..], token) && AllGiven(h, |won|, s)
    ensures Orderly(h, o, s, deadline)
  {
    hide Readings, InTime;
    forall i | 0 <= i < |h| ensures DueAt(h, i, o, s, deadline) {
      if i < |won| {
        assert h[..i] == won[..i] && h[i] == won[i] && DueAt(won, i, o, s, deadline);
      } else {
        assert h[i] == h[|won|..][i - |won|];
      }
    }
  }

  /** The owner's actions add no claim and no look. */
  lemma OwnerCounts(won: seq<Action>, h: seq<Action>, token: Text)
    requires |won| <= |h| && h[..|won|] == won && OwnerActions(h[|won|..], token)
    ensures Count(h, CLAIM) == Count(won, CLAIM) && Count(h, LOOK) == Count(won, LOOK) && Markers(h) == Markers(won)
  {
    assert h == won + h[|won|..];
    OnlyOwner(won, h, h[|won|..]);
  }

  lemma OnlyOwner(won: seq<Action>, h: seq<Action>, tail: seq<Action>)
    requires h == won + tail
    requires forall i :: 0 <= i < |tail| ==> tail[i].Ran? || tail[i].Published? || tail[i].Cleaned?
    ensures Count(h, CLAIM) == Count(won, CLAIM) && Count(h, LOOK) == Count(won, LOOK) && Markers(h) == Markers(won)
    decreases tail
  {
    if tail == [] {
      assert h == won;
    } else {
      var init := tail[..|tail| - 1];
      OnlyOwner(won, won + init, init);
      assert h == (won + init) + [tail[|tail| - 1]];
      CountNext(won + init, tail[|tail| - 1]);
      MarkersNext(won + init, tail[|tail| - 1]);
    }
  }

  /** A winner runs the loader at most once, publishes at most once and cleans up
      at most once, each under its own token. */
  lemma OwnerActsOnce(h: seq<Action>, w: nat, o: Options, s: Surroundings, deadline: real, r: Outcome)
    requires OwnerOutcome(h, w, o, s, deadline, r)
    ensures Count(h, RUN) <= 1 && Count(h, PUBLISH) <= 1 && Count(h, CLEAN) <= 1
    ensures forall i :: 0 <= i < |h| && (h[i].Published? || h[i].Cleaned?) ==> w < i && h[i].token == h[w].token
  {
    hide Count, OwnerOutcome, AllGiven, WonAt;
    OwnerTail(h, w, o, s, deadline, r);
    var won := h[..w + 1];
    assert h == won + h[w + 1..];
    WonCounts(h, w);
    OwnerCountsOnce(won, h[w + 1..], h[w].token);
    forall i | 0 <= i < |h| && (h[i].Published? || h[i].Cleaned?) ensures w < i && h[i].token == h[w].token {
      if i <= w { WonEarlier(h, w, i); } else { assert h[i] == h[w + 1..][i - w - 1]; }
    }
  }

  lemma WonEarlier(h: seq<Action>, w: nat, i: nat)
    requires WonAt(h, w) && i <= w
    ensures h[i].Claimed? || h[i].Looked? || h[i].Slept?
  {
    assert i < w ==> h[i] == h[..w][i];
  }

  /** A winner whose load and encoding succeed with its lease still running publishes,
      and returns the value as loaded exactly if that is accepted; it never publishes
      otherwise. */
  lemma PublishesIff(h: seq<Action>, w: nat, o: Options, s: Surroundings, deadline: real, r: Outcome)
    requires OwnerOutcome(h, w, o, s, deadline, r)
    ensures var won, ran := h[..w + 1], h[..w + 2];
      var n := Readings(won);
      var leaseEnd := s.clock(won, n + 1) + o.leaseTtl;
      && (Count(h, RUN) == 1 <==> s.clock(won, n) < deadline)
      && (Count(h, PUBLISH) == 1 <==>
            && s.clock(won, n) < deadline && s.clock(ran, n + 2) < leaseEnd && s.clock(ran, n + 3) < leaseEnd
            && h[w + 1].load.Got? && s.encode(h[w].token, h[w + 1].load.value).Bytes?)
      && (forall v :: r == Loaded(v) <==>
            && Count(h, PUBLISH) == 1 && h[w + 2].publish == Accepted && h[w + 1] == Ran(Got(v)))
      && (forall v :: r == LeaseLost(v) <==>
            && s.clock(won, n) < deadline && h[w + 1] == Ran(Got(v))
            && (|| (Count(h, PUBLISH) == 1 && h[w + 2].publish == Refused)
                || s.clock(ran, n + 2) >= leaseEnd
                || (s.encode(h[w].token, v).Bytes? && s.clock(ran, n + 3) >= leaseEnd)))
  {
    hide Count, Readings, OwnerEnds, OwnerActions, AllGiven, WonAt;
    OwnerTail(h, w, o, s, deadline, r);
    var won, ran, tail, token := h[..w + 1], h[..w + 2], h[w + 1..], h[w].token;
    WonCounts(h, w);
    assert h == won + tail;
    TailCounts(won, tail, token);
    assert h[w + 1] == tail[0];
    if |tail| >= 2 { assert h[w + 2] == tail[1]; }
    if s.clock(won, Readings(won)) < deadline {
      var leaseEnd := s.clock(won, Readings(won) + 1) + o.leaseTtl;
      var first, second := s.clock(ran, Readings(won) + 2) < leaseEnd, s.clock(ran, Readings(won) + 3) < leaseEnd;
      EndsIff(tail, token, first, second, s, r);
    }
  }

  lemma WonCounts(h: seq<Action>, w: nat)
    requires WonAt(h, w)
    ensures Count(h[..w + 1], RUN) == Count(h[..w + 1], PUBLISH) == Count(h[..w + 1], CLEAN) == 0
  {
    hide Count;
    assert h[..w + 1] == h[..w] + [h[w]];
    WaitingCounts(h[..w]);
    CountNext(h[..w], h[w]);
  }

  lemma EndsIff(tail: seq<Action>, token: Text, first: bool, second: bool, s: Surroundings, r: Outcome)
    requires OwnerEnds(tail, token, first, second, s, r)
    ensures tail != [] && tail[0].Ran?
    ensures PublishedFirst(tail) <==>
      first && second && tail[0].load.Got? && s.encode(token, tail[0].load.value).Bytes?
    ensures forall v :: r == Loaded(v) <==>
      PublishedFirst(tail) && tail[1].publish == Accepted && tail[0] == Ran(Got(v))
    ensures forall v :: r == LeaseLost(v) <==>
      && tail[0] == Ran(Got(v))
      && (|| (PublishedFirst(tail) && tail[1].publish == Refused) || !first
          || (s.encode(token, v).Bytes? && !second))
  {
  }

  lemma TailCounts(won: seq<Action>, tail: seq<Action>, token: Text)
    requires OwnerActions(tail, token)
    ensures Count(won + tail, RUN) == Count(won, RUN) + if tail != [] && tail[0].Ran? then 1 else 0
    ensures Count(won + tail, PUBLISH) == Count(won, PUBLISH) + if PublishedFirst(tail) then 1 else 0
  {
    hide Count;
    if |tail| == 0 {
      assert won + tail == won;
    } else {
      CountNext(won, tail[0]);
      if |tail| == 1 {
        assert won + tail == won + [tail[0]];
      } else {
        CountNext(won + [tail[0]], tail[1]);
        if |tail| == 2 {
          assert won + tail == won + [tail[0]] + [tail[1]];
        } else {
          CountNext(won + [tail[0]] + [tail[1]], tail[2]);
          assert won + tail == won + [tail[0]] + [tail[1]] + [tail[2]];
        }
      }
    }
  }

  lemma OwnerCountsOnce(won: seq<Action>, tail: seq<Action>, token: Text)
    requires OwnerActions(tail, token)
    ensures Count(won + tail, RUN) <= Count(won, RUN) + 1
    ensures Count(won + tail, PUBLISH) <= Count(won, PUBLISH) + 1
    ensures Count(won + tail, CLEAN) <= Count(won, CLEAN) + 1
  {
    hide Count;
    if |tail| == 0 {
      assert won + tail == won;
    } else {
      CountNext(won, tail[0]);
      if |tail| == 1 {
        assert won + tail == won + [tail[0]];
      } else {
        CountNext(won + [tail[0]], tail[1]);
        if |tail| == 2 {
          assert won + tail == won + [tail[0]] + [tail[1]];
        } else {
          CountNext(won + [tail[0]] + [tail[1]], tail[2]);
          assert won + tail == won + [tail[0]] + [tail[1]] + [tail[2]];
        }
      }
    }
  }

  lemma {:induction false} WaitingCounts(h: seq<Action>)
    requires Waiting(h)
    ensures Count(h, RUN) == 0 && Count(h, PUBLISH) == 0 && Count(h, CLEAN) == 0
  {
    if h != [] {
      WaitingCounts(h[..|h| - 1]);
      assert !Wins(h[|h| - 1]);
    }
  }
}
