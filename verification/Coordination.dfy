/** The load-coordination protocol over its marker and result keys: one flight at a
    time holds the active marker, and publishing replaces it by a completion marker
    together with the result.  A run is any sequence of script executions by any
    clients, however late, on a clock that does not run back. */
module Coordination {
  import opened Wrappers
  import opened Utf8
  import opened Envelope

  /** What the two keys stand for. */
  datatype Phase =
    | Idle
    | Active(token: Text, deadline: int)
    | Completed(token: Text, bytes: seq<byte>, deadline: int)

  datatype Command =
    | Claim(token: Text, ttl: nat)
    | Publish(token: Text, bytes: seq<byte>, ttl: nat)
    | Cleanup(token: Text)
    | Look

  datatype Reply = Done(ok: bool) | Seen(phase: Phase)

  function Current(p: Phase, now: int): Phase {
    if !p.Idle? && now >= p.deadline then Idle else p
  }

  function Execute(p: Phase, c: Command, now: int): (Phase, Reply) {
    var q := Current(p, now);
    match c
    case Claim(t, ttl) => if q.Idle? then (Active(t, now + ttl), Done(true)) else (q, Done(false))
    case Publish(t, bytes, ttl) =>
      if q.Active? && q.token == t then (Completed(t, bytes, now + ttl), Done(true)) else (q, Done(false))
    case Cleanup(t) => if q.Active? && q.token == t then (Idle, Done(true)) else (q, Done(false))
    case Look => (q, Seen(q))
  }

  datatype Step = Step(delay: nat, command: Command)

  datatype World = World(phase: Phase, now: int)

  function Advance(w: World, step: Step): (World, Reply) {
    var (p, reply) := Execute(w.phase, step.command, w.now + step.delay);
    (World(p, w.now + step.delay), reply)
  }

  function Run(steps: seq<Step>): World {
    if steps == [] then World(Idle, 0) else Advance(Run(steps[..|steps| - 1]), steps[|steps| - 1]).0
  }

  function ReplyAt(steps: seq<Step>, i: nat): Reply
    requires i < |steps|
  {
    Advance(Run(steps[..i]), steps[i]).1
  }

  /** Every claim has a token of its own. */
  predicate UniqueTokens(steps: seq<Step>) {
    forall i, j :: 0 <= i < j < |steps| && steps[i].command.Claim? && steps[j].command.Claim? ==>
      steps[i].command.token != steps[j].command.token
  }

  predicate PublishedAt(steps: seq<Step>, i: nat, t: Text)
    requires i < |steps|
  {
    steps[i].command.Publish? && steps[i].command.token == t && ReplyAt(steps, i) == Done(true)
  }

  predicate ClaimedAt(steps: seq<Step>, i: nat, t: Text)
    requires i < |steps|
  {
    steps[i].command.Claim? && steps[i].command.token == t && ReplyAt(steps, i) == Done(true)
  }

  lemma ReplyOfPrefix(steps: seq<Step>, n: nat, i: nat)
    requires i < n <= |steps|
    ensures ReplyAt(steps[..n], i) == ReplyAt(steps, i)
  {
    assert steps[..n][..i] == steps[..i];
  }

  /** `c` is the claim an active marker comes from; nothing was published under its
      token since. */
  predicate ActiveSince(steps: seq<Step>, c: nat, t: Text) {
    && c < |steps| && ClaimedAt(steps, c, t)
    && forall k :: c < k < |steps| ==> !PublishedAt(steps, k, t)
  }

  lemma {:induction false} OriginOfActive(steps: seq<Step>) returns (c: nat)
    requires Run(steps).phase.Active?
    ensures ActiveSince(steps, c, Run(steps).phase.token)
  {
    var last := |steps| - 1;
    var init := steps[..last];
    var t := Run(steps).phase.token;
    if steps[last].command.Claim? && ReplyAt(steps, last) == Done(true) {
      c := last;
    } else {
      c := OriginOfActive(init);
      ReplyOfPrefix(steps, last, c);
      forall k | c < k < |steps| ensures !PublishedAt(steps, k, t) {
        if k < last {
          ReplyOfPrefix(steps, last, k);
          assert !PublishedAt(init, k, t);
        }
      }
    }
  }

  /** A result is there only because its token's owner published exactly it, while
      the owner's own active marker was live. */
  lemma {:induction false} OriginOfCompleted(steps: seq<Step>) returns (i: nat)
    requires Run(steps).phase.Completed?
    ensures i < |steps| && PublishedAt(steps, i, Run(steps).phase.token)
    ensures steps[i].command.bytes == Run(steps).phase.bytes
    ensures Run(steps).phase.deadline == Run(steps[..i]).now + steps[i].delay + steps[i].command.ttl
  {
    var last := |steps| - 1;
    if steps[last].command.Publish? && ReplyAt(steps, last) == Done(true) {
      i := last;
    } else {
      i := OriginOfCompleted(steps[..last]);
      ReplyOfPrefix(steps, last, i);
      assert steps[..last][..i] == steps[..i];
    }
  }

  /** A publish succeeds exactly while its own active marker is live, and then leaves
      its completion with its bytes for its time; otherwise it changes nothing. */
  lemma PublishNeedsOwnMarker(steps: seq<Step>, i: nat)
    requires i < |steps| && steps[i].command.Publish?
    ensures var now := Run(steps[..i]).now + steps[i].delay;
      var p := Run(steps[..i]).phase;
      var after := Run(steps[..i + 1]).phase;
      && (ReplyAt(steps, i) == Done(true) <==> p.Active? && p.token == steps[i].command.token && now < p.deadline)
      && (ReplyAt(steps, i) == Done(true) || ReplyAt(steps, i) == Done(false))
      && after == if ReplyAt(steps, i) == Done(true)
           then Completed(steps[i].command.token, steps[i].command.bytes, now + steps[i].command.ttl)
           else Current(p, now)
  {
    assert steps[..i + 1][..i] == steps[..i];
  }

  /** A claim wins exactly when no marker, active or completed, is live, and then leaves
      its own active marker for its time; a lost one changes nothing.  A cleanup
      frees the marker exactly when it is the token's own active one and otherwise
      changes nothing. */
  lemma ClaimAndCleanupExact(steps: seq<Step>, i: nat)
    requires i < |steps|
    ensures var now := Run(steps[..i]).now + steps[i].delay;
      var p := Run(steps[..i]).phase;
      var after := Run(steps[..i + 1]).phase;
      && (steps[i].command.Claim? ==>
            && (ReplyAt(steps, i) == Done(true) <==> p.Idle? || now >= p.deadline)
            && (ReplyAt(steps, i) == Done(true) ==>
                  after == Active(steps[i].command.token, now + steps[i].command.ttl))
            && (ReplyAt(steps, i) != Done(true) ==> ReplyAt(steps, i) == Done(false) && after == p))
      && (steps[i].command.Cleanup? ==>
            (ReplyAt(steps, i) == Done(true) <==> p.Active? && p.token == steps[i].command.token && now < p.deadline))
      && (steps[i].command.Cleanup? ==> after == if ReplyAt(steps, i) == Done(true) then Idle else Current(p, now))
      && (steps[i].command.Look? ==> ReplyAt(steps, i) == Seen(Current(p, now)) && after == Current(p, now))
  {
    assert steps[..i + 1][..i] == steps[..i];
  }

  /** No token publishes twice. */
  lemma PublishesOnce(steps: seq<Step>, i: nat, j: nat, t: Text)
    requires UniqueTokens(steps) && i < |steps| && j < |steps|
    requires PublishedAt(steps, i, t) && PublishedAt(steps, j, t)
    ensures i == j
  {
    if i < j {
      NotPublishedAgain(steps, i, j, t);
    } else if j < i {
      NotPublishedAgain(steps, j, i, t);
    }
  }

  lemma NotPublishedAgain(steps: seq<Step>, i: nat, j: nat, t: Text)
    requires UniqueTokens(steps) && i < j < |steps| && PublishedAt(steps, i, t)
    ensures !PublishedAt(steps, j, t)
  {
    if PublishedAt(steps, j, t) {
      var a := ClaimBeforePublish(steps, i, t);
      var b := ClaimBeforePublish(steps, j, t);
    }
  }

  /** A publish follows its token's claim with no other publish of the token between. */
  lemma ClaimBeforePublish(steps: seq<Step>, i: nat, t: Text) returns (a: nat)
    requires i < |steps| && PublishedAt(steps, i, t)
    ensures a < i && steps[a].command.Claim? && steps[a].command.token == t
    ensures forall k :: a < k < i ==> !PublishedAt(steps, k, t)
  {
    hide Execute, Run;
    PublishNeedsOwnMarker(steps, i);
    a := OriginOfActive(steps[..i]);
    ReplyOfPrefix(steps, i, a);
    forall k | a < k < i ensures !PublishedAt(steps, k, t) {
      ReplyOfPrefix(steps, i, k);
      assert !PublishedAt(steps[..i], k, t);
    }
  }

  /** Two flights never hold the marker at once: when a claim wins, the earlier
      winner's publish can no longer succeed. */
  lemma {:induction false} LaterWinnerExcludes(steps: seq<Step>, i: nat, j: nat, k: nat)
    requires UniqueTokens(steps) && i < j < k < |steps|
    requires steps[i].command.Claim? && steps[j].command.Claim?
    requires ClaimedAt(steps, i, steps[i].command.token) && ClaimedAt(steps, j, steps[j].command.token)
    ensures !PublishedAt(steps, k, steps[i].command.token)
  {
    hide Execute, Run;
    var t := steps[i].command.token;
    if PublishedAt(steps, k, t) {
      PublishNeedsOwnMarker(steps, k);
      StaysReplaced(steps, j, k, t);
      assert false;
    }
  }

  /** Once another claim has won, the marker is never this token's again. */
  lemma {:induction false} StaysReplaced(steps: seq<Step>, j: nat, k: nat, t: Text)
    requires UniqueTokens(steps) && j < k <= |steps| && steps[j].command.Claim? &&
        ClaimedAt(steps, j, steps[j].command.token)
    requires exists i :: 0 <= i < j && steps[i].command.Claim? && steps[i].command.token == t
    ensures Run(steps[..k]).phase.Active? ==> Run(steps[..k]).phase.token != t
  {
    assert steps[..k][..k - 1] == steps[..k - 1];
    var i :| 0 <= i < j && steps[i].command.Claim? && steps[i].command.token == t;
    if k - 1 > j {
      StaysReplaced(steps, j, k - 1, t);
    }
  }

  // ----- the keys -----

  datatype MarkerState = ACTIVE | COMPLETED

  /** `active:` and `completed:` */
  function Prefix(s: MarkerState): (r: seq<byte>)
    ensures |r| == if s == ACTIVE then 7 else 10
  {
    match s
    case ACTIVE => [97, 99, 116, 105, 118, 101, 58]
    case COMPLETED => [99, 111, 109, 112, 108, 101, 116, 101, 100, 58]
  }

  function Marker(s: MarkerState, t: Text): seq<byte>
    requires IsToken(t)
  {
    Prefix(s) + t
  }

  const COLON: byte := 58
  const MAX_MARKER := 138

  /** Where the first colon is, or the length. */
  function ColonAt(b: seq<byte>): (n: nat)
    ensures n <= |b| && (n < |b| ==> b[n] == COLON) && forall i :: 0 <= i < n ==> b[i] != COLON
  {
    if b == [] || b[0] == COLON then 0 else 1 + ColonAt(b[1..])
  }

  /** `None` is the invalid-artifact error. */
  function ParseMarker(b: seq<byte>): Option<(MarkerState, Text)> {
    if exists i :: 0 <= i < |b| && b[i] >= 128 then None
    else
      var n := ColonAt(b);
      if n == |b| then None
      else
        var state := b[..n];
        var token := b[n + 1..];
        if !IsToken(token) then None
        else if state + [COLON] == Prefix(ACTIVE) then Some((ACTIVE, token))
        else if state + [COLON] == Prefix(COMPLETED) then Some((COMPLETED, token))
        else None
  }

  lemma PrefixShape(s: MarkerState)
    ensures var p := Prefix(s);
      && p[|p| - 1] == COLON && (forall i :: 0 <= i < |p| ==> p[i] < 128)
      && forall i :: 0 <= i < |p| - 1 ==> p[i] != COLON
  {
    match s
    case ACTIVE => assert Prefix(s) == [97, 99, 116, 105, 118, 101, 58];
    case COMPLETED => assert Prefix(s) == [99, 111, 109, 112, 108, 101, 116, 101, 100, 58];
  }

  lemma ColonAfter(b: seq<byte>, n: nat)
    requires n < |b| && b[n] == COLON && forall i :: 0 <= i < n ==> b[i] != COLON
    ensures ColonAt(b) == n
  {
  }

  lemma PrefixesDiffer()
    ensures Prefix(ACTIVE) != Prefix(COMPLETED)
  {
    assert |Prefix(ACTIVE)| != |Prefix(COMPLETED)|;
  }

  lemma MarkerParses(s: MarkerState, t: Text)
    requires IsToken(t)
    ensures ParseMarker(Marker(s, t)) == Some((s, t))
  {
    hide Prefix;
    PrefixShape(s);
    PrefixesDiffer();
    var b, n := Marker(s, t), |Prefix(s)| - 1;
    forall i | 0 <= i < |b| ensures b[i] < 128 {
      if i <= n { assert b[i] == Prefix(s)[i]; } else { assert b[i] == t[i - n - 1] && IsTokenCode(t[i - n - 1]); }
    }
    assert forall i :: 0 <= i <= n ==> b[i] == Prefix(s)[i];
    ColonAfter(b, n);
    assert b[..n] + [COLON] == Prefix(s) && b[n + 1..] == t;
  }

  /** A marker is read back exactly, and nothing else is a marker. */
  lemma ParseMarkerIff(b: seq<byte>, s: MarkerState, t: Text)
    ensures ParseMarker(b) == Some((s, t)) <==> IsToken(t) && b == Marker(s, t)
  {
    hide Prefix, IsToken;
    if ParseMarker(b) == Some((s, t)) {
      assert b == b[..ColonAt(b)] + [COLON] + b[ColonAt(b) + 1..];
    }
    if IsToken(t) && b == Marker(s, t) {
      MarkerParses(s, t);
    }
  }

  datatype Entry = Entry(bytes: seq<byte>, deadline: int)

  datatype Keys = Keys(marker: Option<Entry>, result: Option<Entry>)

  function Live(e: Option<Entry>, now: int): Option<Entry> {
    if e.Some? && now < e.value.deadline then e else None
  }

  /** Keys that are not the protocol's stand for nothing. */
  function AbsOf(k: Keys, now: int): Option<Phase> {
    var m, r := Live(k.marker, now), Live(k.result, now);
    if m.None? then (if r.None? then Some(Idle) else None)
    else
      match ParseMarker(m.value.bytes)
      case None => None
      case Some((ACTIVE, t)) => if r.None? then Some(Active(t, m.value.deadline)) else None
      case Some((COMPLETED, t)) =>
        if r.None? || r.value.deadline != m.value.deadline then None
        else Some(Completed(t, r.value.bytes, m.value.deadline))
  }

  /** Keys stand for a phase exactly if they hold what it is written as: nothing, an
      active marker alone, or a completion marker and a result that expire together. */
  lemma AbsIff(k: Keys, now: int, p: Phase)
    ensures AbsOf(k, now) == Some(p) <==>
      match p
      case Idle => Live(k.marker, now).None? && Live(k.result, now).None?
      case Active(t, deadline) =>
        && IsToken(t) && Live(k.marker, now) == Some(Entry(Marker(ACTIVE, t), deadline))
        && Live(k.result, now).None?
      case Completed(t, bytes, deadline) =>
        && IsToken(t) && Live(k.marker, now) == Some(Entry(Marker(COMPLETED, t), deadline))
        && Live(k.result, now) == Some(Entry(bytes, deadline))
  {
    hide ParseMarker, Marker, IsToken;
    if Live(k.marker, now).Some? {
      var b := Live(k.marker, now).value.bytes;
      forall state, t ensures ParseMarker(b) == Some((state, t)) <==> IsToken(t) && b == Marker(state, t) {
        ParseMarkerIff(b, state, t);
      }
    }
  }

  /** The result is there exactly when the marker is a completion, and both leave
      together, so the passing of time never separates them. */
  lemma AbsLater(k: Keys, now: int, later: int)
    requires now <= later && AbsOf(k, now).Some?
    ensures AbsOf(k, later) == Some(Current(AbsOf(k, now).value, later))
  {
    hide ParseMarker;
  }

  class CoordinationKeys {
    var marker: Option<Entry>
    var result: Option<Entry>

    function View(): Keys reads this {
      Keys(marker, result)
    }

    constructor ()
      ensures AbsOf(View(), 0) == Some(Idle)
    {
      marker, result := None, None;
    }

    method SetIfAbsent(token: Text, ttl: nat, now: int) returns (acquired: bool)
      requires IsToken(token) && ttl >= 1 && AbsOf(View(), now).Some?
      modifies this`marker
      ensures var (p, reply) := Execute(old(AbsOf(View(), now)).value, Claim(token, ttl), now);
        AbsOf(View(), now) == Some(p) && Done(acquired) == reply
    {
      hide ParseMarker, Marker;
      if Live(marker, now).Some? { return false; }
      marker := Some(Entry(Marker(ACTIVE, token), now + ttl));
      ParseMarkerIff(Marker(ACTIVE, token), ACTIVE, token);
      acquired := true;
    }

    method PublishIfValue(token: Text, bytes: seq<byte>, ttl: nat, now: int) returns (published: bool)
      requires IsToken(token) && ttl >= 1 && AbsOf(View(), now).Some?
      modifies this
      ensures var (p, reply) := Execute(old(AbsOf(View(), now)).value, Publish(token, bytes, ttl), now);
        AbsOf(View(), now) == Some(p) && Done(published) == reply
    {
      hide ParseMarker, Marker;
      var held := Live(marker, now);
      if held.Some? { ParseMarkerIff(held.value.bytes, ACTIVE, token); }
      if held.Some? && held.value.bytes == Marker(ACTIVE, token) {
        result := Some(Entry(bytes, now + ttl));
        marker := Some(Entry(Marker(COMPLETED, token), now + ttl));
        ParseMarkerIff(Marker(COMPLETED, token), COMPLETED, token);
        return true;
      }
      published := false;
    }

    method DeleteIfValue(token: Text, now: int) returns (deleted: bool)
      requires IsToken(token) && AbsOf(View(), now).Some?
      modifies this`marker
      ensures var (p, reply) := Execute(old(AbsOf(View(), now)).value, Cleanup(token), now);
        AbsOf(View(), now) == Some(p) && Done(deleted) == reply
    {
      hide ParseMarker, Marker;
      var held := Live(marker, now);
      if held.Some? { ParseMarkerIff(held.value.bytes, ACTIVE, token); }
      if held.Some? && held.value.bytes == Marker(ACTIVE, token) {
        marker := None;
        return true;
      }
      deleted := false;
    }

    /** The bounded read: existence, length and a prefix of each key, the result's
        left out behind an active marker. */
    method Snapshot(maxMarker: nat, maxResult: nat, now: int) returns (response: Response)
      requires 1 <= maxMarker && 1 <= maxResult
      ensures response == Respond(Live(marker, now), Live(result, now), maxMarker, maxResult)
    {
      var m, r := Live(marker, now), Live(result, now);
      var markerExists, markerLength := Exists(m), |BytesOf(m)|;
      var readLimit := maxMarker;
      if readLimit < 7 { readLimit := 7; }
      var probe := GetRange(BytesOf(m), readLimit);
      var markerValue := GetRange(probe, maxMarker);
      assert markerValue == GetRange(BytesOf(m), maxMarker);
      assert GetRange(probe, 7) == GetRange(BytesOf(m), 7);
      if GetRange(probe, 7) == Prefix(ACTIVE) {
        return Response(markerExists, markerLength, markerValue, 0, 0, []);
      }
      response := Response(markerExists, markerLength, markerValue, Exists(r), |BytesOf(r)|,
        GetRange(BytesOf(r), maxResult));
    }
  }

  // ----- the snapshot -----

  datatype Response = Response(
    markerExists: int, markerLength: int, markerValue: seq<byte>,
    resultExists: int, resultLength: int, resultValue: seq<byte>)

  function BytesOf(e: Option<Entry>): seq<byte> {
    if e.Some? then e.value.bytes else []
  }

  function Exists(e: Option<Entry>): int {
    if e.Some? then 1 else 0
  }

  function GetRange(b: seq<byte>, n: nat): seq<byte> {
    if n < |b| then b[..n] else b
  }

  function Respond(m: Option<Entry>, r: Option<Entry>, maxMarker: nat, maxResult: nat): Response {
    var shown := if GetRange(BytesOf(m), 7) == Prefix(ACTIVE) then None else r;
    Response(Exists(m), |BytesOf(m)|, GetRange(BytesOf(m), maxMarker), Exists(shown), |BytesOf(shown)|,
      GetRange(BytesOf(shown), maxResult))
  }

  /** A value of at most `maximum` bytes and whether it was longer; `None` is the
      invalid-response error. */
  function SnapshotPart(exists_: int, length: int, value: seq<byte>, maximum: nat): Option<(Option<seq<byte>>, bool)> {
    if (exists_ != 0 && exists_ != 1) || length < 0 then None
    else if exists_ == 0 then (if length != 0 || value != [] then None else Some((None, false)))
    else
      var oversized := length > maximum;
      if |value| != (if oversized then maximum else length) then None else Some((Some(value), oversized))
  }

  datatype Snapshot = Snapshot(
    marker: Option<seq<byte>>, result: Option<seq<byte>>, markerOversized: bool, resultOversized: bool)

  function ParseResponse(r: Response, maxMarker: nat, maxResult: nat): Option<Snapshot> {
    var marker := SnapshotPart(r.markerExists, r.markerLength, r.markerValue, maxMarker);
    var result := SnapshotPart(r.resultExists, r.resultLength, r.resultValue, maxResult);
    if marker.None? || result.None? then None
    else Some(Snapshot(marker.value.0, result.value.0, marker.value.1, result.value.1))
  }

  /** What the script answers about one key that holds `content`, if it exists. */
  predicate PartOf(content: Option<seq<byte>>, exists_: int, length: int, value: seq<byte>, maximum: nat) {
    match content
    case None => exists_ == 0 && length == 0 && value == []
    case Some(b) => exists_ == 1 && length == |b| && value == GetRange(b, maximum)
  }

  /** An answer about a key is taken exactly if some content would give it, and is then
      read as that content, cut at the limit; any other answer is an invalid response. */
  lemma SnapshotPartIff(exists_: int, length: int, value: seq<byte>, maximum: nat)
    ensures SnapshotPart(exists_, length, value, maximum).Some? <==>
      exists content :: PartOf(content, exists_, length, value, maximum)
    ensures forall content | PartOf(content, exists_, length, value, maximum) ::
      SnapshotPart(exists_, length, value, maximum) ==
        match content
        case None => Some((None, false))
        case Some(b) => Some((Some(GetRange(b, maximum)), |b| > maximum))
  {
    if SnapshotPart(exists_, length, value, maximum).Some? {
      if exists_ == 0 {
        assert PartOf(None, exists_, length, value, maximum);
      } else {
        var b := value + seq(length - |value|, i => 0);
        assert GetRange(b, maximum) == value;
        assert PartOf(Some(b), exists_, length, value, maximum);
      }
    }
  }

  /** The script's own answer is never an invalid response, and says exactly what
      the keys hold, cut at the limits. */
  lemma SnapshotExact(m: Option<Entry>, r: Option<Entry>, maxMarker: nat, maxResult: nat)
    requires 1 <= maxMarker && 1 <= maxResult
    ensures var s := ParseResponse(Respond(m, r, maxMarker, maxResult), maxMarker, maxResult);
      && s.Some?
      && (s.value.marker.Some? <==> m.Some?)
      && s.value.markerOversized == (|BytesOf(m)| > maxMarker)
      && (!s.value.markerOversized && m.Some? ==> s.value.marker.value == m.value.bytes)
      && (GetRange(BytesOf(m), 7) == Prefix(ACTIVE) ==> s.value.result.None?)
      && (GetRange(BytesOf(m), 7) != Prefix(ACTIVE) ==>
            && (s.value.result.Some? <==> r.Some?)
            && s.value.resultOversized == (|BytesOf(r)| > maxResult)
            && (!s.value.resultOversized && r.Some? ==> s.value.result.value == r.value.bytes))
  {
  }

  /** What a waiting flight sees of protocol keys: no marker, an active one, or a
      completion with its whole result.  Neither the oversize, the unreadable
      marker nor the missing-result error can occur. */
  lemma SnapshotNeverTorn(k: Keys, now: int, maxResult: nat)
    requires AbsOf(k, now).Some? && 1 <= maxResult
    requires AbsOf(k, now).value.Completed? ==> |AbsOf(k, now).value.bytes| <= maxResult
    ensures var s := ParseResponse(Respond(Live(k.marker, now), Live(k.result, now), MAX_MARKER, maxResult),
      MAX_MARKER, maxResult);
      && s.Some? && !s.value.markerOversized && !s.value.resultOversized
      && match AbsOf(k, now).value
         case Idle => s.value.marker.None?
         case Active(t, _) => s.value.marker.Some? && ParseMarker(s.value.marker.value) == Some((ACTIVE, t))
         case Completed(t, bytes, _) =>
           s.value.marker.Some? && ParseMarker(s.value.marker.value) == Some((COMPLETED, t)) &&
               s.value.result == Some(bytes)
  {
    hide ParseMarker;
    var m, r := Live(k.marker, now), Live(k.result, now);
    SnapshotExact(m, r, MAX_MARKER, maxResult);
    if m.Some? {
      var s, t := ParseMarker(m.value.bytes).value.0, ParseMarker(m.value.bytes).value.1;
      ParseMarkerIff(m.value.bytes, s, t);
      assert GetRange(m.value.bytes, |Prefix(s)|) == Prefix(s);
      assert s == COMPLETED ==> m.value.bytes[1] == 111;
    }
  }
}
