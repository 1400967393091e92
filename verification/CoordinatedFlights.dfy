/** The flight loop on the coordination protocol: what it sees of the keys while every
    owner publishes its own value. */
module CoordinatedFlights {
  import opened Wrappers
  import opened Utf8
  import opened Envelope
  import opened Coordination
  import opened ResultCodec
  import opened CoordinatedResults
  import opened FlightLoop

  /** The parsed snapshot of the keys at `now`, when they stand for the phase that a
      run of honest owners has reached. */
  ghost predicate SnapshotOf(snapshot: Snapshot, k: Keys, now: int, steps: seq<Step>, c: Codec, owned: Text -> Value) {
    && HonestOwners(steps, c, owned)
    && AbsOf(k, now) == Some(Coordination.Run(steps).phase)
    && 1 <= c.maxSize
    && ParseResponse(Respond(Live(k.marker, now), Live(k.result, now), MAX_MARKER, c.maxSize), MAX_MARKER, c.maxSize)
         == Some(snapshot)
  }

  ghost predicate Honest(look: LookReply, c: Codec, owned: Text -> Value) {
    look.Saw? ==> exists k, now, steps :: SnapshotOf(look.snapshot, k, now, steps, c, owned)
  }

  function OpenReplyOf(r: Result<Option<Value>, CodecError>): OpenReply {
    match r
    case Ok(Some(v)) => Match(v)
    case Ok(None) => Mismatch
    case Fail(_) => OpenRaised
  }

  /** The loop's decoder is the codec's. */
  ghost predicate OpensWith(s: Surroundings, c: Codec) {
    forall bytes, e, token | Envelops(bytes, e) :: s.open(bytes, token) == OpenReplyOf(Opened(c, e, token))
  }

  /** The token of a completed marker that the look shows. */
  function CompletedToken(look: LookReply): Option<Text> {
    if look.LookFailed? || look.snapshot.marker.None? then None
    else
      match ParseMarker(look.snapshot.marker.value)
      case Some((COMPLETED, t)) => Some(t)
      case _ => None
  }

  /** No look can be refused or fail to decode, and one at a completed marker always
      has the token's owner's value to reuse. */
  lemma HonestLook(look: LookReply, s: Surroundings, c: Codec, owned: Text -> Value)
    requires ValidCodec(c) && Faithful(c) && OpensWith(s, c) && Honest(look, c, owned)
    ensures !Invalid(look) && !Unreadable(look, s)
    ensures CompletedToken(look).Some? ==> ReusedFrom(look, s, owned(CompletedToken(look).value))
  {
    hide Coordination.Run, ParseMarker, ParseResponse, Respond, AbsOf, HonestOwners, Faithful;
    if look.Saw? {
      var k, now, steps :| SnapshotOf(look.snapshot, k, now, steps, c, owned);
      var phase := Coordination.Run(steps).phase;
      if phase.Completed? {
        ReusedValueIsOwners(steps, c, owned);
        var e :| Envelops(phase.bytes, e) && Opened(c, e, phase.token) == Ok(Some(owned(phase.token)));
        assert s.open(phase.bytes, phase.token) == Match(owned(phase.token));
      }
      SnapshotNeverTorn(k, now, c.maxSize);
    }
  }

  /** A flight on the protocol never ends with an invalid artifact or, while it waits,
      with a decoding failure.  The first completed marker it sees is the last thing
      it looks at: it returns that owner's value, or was too late to. */
  lemma FlightReusesFirst(
    h: seq<Action>, attempts: nat, polls: nat, o: Options, s: Surroundings, deadline: real, r: Outcome, c: Codec,
    owned: Text -> Value)
    requires ValidOptions(o) && Flown(h, attempts, polls, o, s, deadline, r)
    requires ValidCodec(c) && Faithful(c) && OpensWith(s, c)
    requires forall i :: 0 <= i < |h| && h[i].Looked? ==> Honest(h[i].look, c, owned)
    ensures r != InvalidArtifact
    ensures Waiting(h) ==> r != EnvelopeFailure
    ensures forall i :: 0 <= i < |h| && h[i].Looked? && CompletedToken(h[i].look).Some? ==>
      i == |h| - 1 && (r == Reused(owned(CompletedToken(h[i].look).value)) || Late(h, s, deadline))
  {
    hide Orderly, Count, Faithful, OpensWith, Honest, ValidCodec, Invalid, Unreadable, ReusedFrom, CompletedToken, Late;
    forall i | 0 <= i < |h| && h[i].Looked?
      ensures !Invalid(h[i].look) && !Unreadable(h[i].look, s)
      ensures CompletedToken(h[i].look).Some? ==> ReusedFrom(h[i].look, s, owned(CompletedToken(h[i].look).value))
    {
      HonestLook(h[i].look, s, c, owned);
    }
    NoWinnerWaits(h, s);
    forall i | 0 <= i < |h| && h[i].Looked? && CompletedToken(h[i].look).Some?
      ensures i == |h| - 1 && (r == Reused(owned(CompletedToken(h[i].look).value)) || Late(h, s, deadline))
    {
      var v := owned(CompletedToken(h[i].look).value);
      assert ReusedFrom(h[i].look, s, v);
      assert Reusable(h[i].look, s);
      if r.Reused? { OneValue(h[i].look, s, v, r.value); }
    }
  }

  lemma OneValue(look: LookReply, s: Surroundings, v: Value, w: Value)
    ensures ReusedFrom(look, s, v) && ReusedFrom(look, s, w) ==> v == w
  {
  }

  /** A history without a win is no winner's. */
  lemma NoWinnerWaits(h: seq<Action>, s: Surroundings)
    ensures Waiting(h) ==> forall w, o, deadline, r :: !OwnerOutcome(h, w, o, s, deadline, r)
  {
  }
}
