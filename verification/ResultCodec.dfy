/** The result codec: caller-owned payload codec and compressors around the binary
    envelope.  The foreign parts are functions the codec is built from. */
module ResultCodec {
  import opened Wrappers
  import opened Utf8
  import opened Envelope

  type Value(==,!new)

  datatype Serialized = Serialized(metadata: Metadata, data: seq<byte>)

  /** `None` stands for an exception of the caller's code. */
  datatype Compressor = Compressor(
    algorithm: Text,
    compress: seq<byte> -> Option<seq<byte>>,
    decompress: seq<byte> -> Option<seq<byte>>)

  datatype Codec = Codec(
    encode: Value -> Option<Serialized>,
    decode: Serialized -> Option<Value>,
    writer: Option<Compressor>,
    readers: map<Text, Compressor>,
    maxSize: nat)

  datatype CodecError =
    | InvalidToken
    | PayloadFailure
    | CompressionFailure
    | TooLong
    | UnsupportedFormat
    | BadEnvelope
    | BadVersion
    | UnknownAlgorithm

  /** identity */
  const IDENTITY: Text := [105, 100, 101, 110, 116, 105, 116, 121]

  /** The registry of the codec's writer and extra readers; refused for an invalid,
      reserved or repeated algorithm. */
  predicate Registrable(all: seq<Compressor>) {
    && (forall i :: 0 <= i < |all| ==> IsAlgorithm(all[i].algorithm) && all[i].algorithm != IDENTITY)
    && forall i, j :: 0 <= i < j < |all| ==> all[i].algorithm != all[j].algorithm
  }

  /** Every algorithm leads to its compressor, and there are no others. */
  ghost predicate Registers(m: map<Text, Compressor>, all: seq<Compressor>) {
    && (forall i :: 0 <= i < |all| ==> all[i].algorithm in m && m[all[i].algorithm] == all[i])
    && forall a :: a in m ==> exists i :: 0 <= i < |all| && all[i].algorithm == a
  }

  lemma RegisterNext(m: map<Text, Compressor>, all: seq<Compressor>, i: nat)
    requires i < |all| && Registrable(all[..i]) && Registers(m, all[..i])
    ensures Registrable(all[..i + 1]) <==>
        IsAlgorithm(all[i].algorithm) && all[i].algorithm != IDENTITY && all[i].algorithm !in m
    ensures all[i].algorithm !in m ==> Registers(m[all[i].algorithm := all[i]], all[..i + 1])
  {
    hide IsAlgorithm;
    var done, next := all[..i], all[..i + 1];
    assert next[..i] == done && next[i] == all[i];
    assert forall k :: 0 <= k < i ==> next[k] == done[k];
    if all[i].algorithm in m {
      var k :| 0 <= k < |done| && done[k].algorithm == all[i].algorithm;
      assert next[k].algorithm == next[i].algorithm;
    } else {
      var n := m[all[i].algorithm := all[i]];
      forall a | a in n ensures exists k :: 0 <= k < |next| && next[k].algorithm == a {
        if a in m {
          var k :| 0 <= k < |done| && done[k].algorithm == a;
          assert next[k].algorithm == a;
        }
      }
    }
  }

  lemma RefusedPrefix(all: seq<Compressor>, i: nat)
    requires i <= |all| && !Registrable(all[..i])
    ensures !Registrable(all)
  {
    hide IsAlgorithm;
    if Registrable(all) {
      assert forall k :: 0 <= k < i ==> all[..i][k] == all[k];
    }
  }

  method BuildRegistry(all: seq<Compressor>) returns (registry: Option<map<Text, Compressor>>)
    ensures registry.Some? <==> Registrable(all)
    ensures registry.Some? ==> Registers(registry.value, all)
  {
    hide IsAlgorithm, Registrable, Registers;
    var built: map<Text, Compressor> := map[];
    assert Registrable(all[..0]) && Registers(built, all[..0]) by { RegisterNone(all[..0]); }
    var i := 0;
    while i < |all|
      invariant 0 <= i <= |all| && Registrable(all[..i]) && Registers(built, all[..i])
    {
      var algorithm := all[i].algorithm;
      RegisterNext(built, all, i);
      if !IsAlgorithm(algorithm) || algorithm == IDENTITY || algorithm in built {
        RefusedPrefix(all, i + 1);
        return None;
      }
      built := built[algorithm := all[i]];
      i := i + 1;
    }
    assert all[..i] == all;
    registry := Some(built);
  }

  lemma RegisterNone(all: seq<Compressor>)
    requires all == []
    ensures Registrable(all) && Registers(map[], all)
  {
  }

  /** What the constructors of the source guarantee. */
  ghost predicate ValidCodec(c: Codec) {
    && 1 <= c.maxSize <= MAX_U32
    && (forall v :: c.encode(v).Some? ==> ValidMetadata(c.encode(v).value.metadata))
    && (c.writer.Some? ==>
          && IsAlgorithm(c.writer.value.algorithm) && c.writer.value.algorithm != IDENTITY
          && c.writer.value.algorithm in c.readers && c.readers[c.writer.value.algorithm] == c.writer.value)
  }

  /** The payload codec and the writer's compressor undo themselves. */
  ghost predicate Faithful(c: Codec) {
    && (forall v :: c.encode(v).Some? ==> c.decode(c.encode(v).value) == Some(v))
    && (c.writer.Some? ==> forall d :: c.writer.value.compress(d).Some? ==>
          c.writer.value.decompress(c.writer.value.compress(d).value) == Some(d))
  }

  // ----- what is encoded -----

  function Compressed(c: Codec, data: seq<byte>): Option<(Text, seq<byte>)> {
    if c.writer.None? then Some((IDENTITY, data))
    else
      var z := c.writer.value.compress(data);
      if z.None? then None else Some((c.writer.value.algorithm, z.value))
  }

  function EnvelopeFor(c: Codec, token: Text, v: Value): Option<Envelope> {
    var s := c.encode(v);
    if s.None? || Compressed(c, s.value.data).None? then None
    else
      var (algorithm, payload) := Compressed(c, s.value.data).value;
      Some(Envelope(1, token, s.value.metadata, algorithm, payload))
  }

  /** The bytes a token's owner publishes for `v`. */
  ghost predicate Encodes(c: Codec, token: Text, v: Value, bytes: seq<byte>) {
    var e := EnvelopeFor(c, token, v);
    IsToken(token) && e.Some? && Layable(e.value) && bytes == Layout(e.value) && |bytes| <= c.maxSize
  }

  lemma EnvelopeValid(c: Codec, token: Text, v: Value)
    requires ValidCodec(c) && IsToken(token) && EnvelopeFor(c, token, v).Some?
    ensures ValidEnvelope(EnvelopeFor(c, token, v).value)
  {
    assert c.encode(v).Some?;
    assert IsAlgorithm(IDENTITY);
  }

  predicate TooBig(c: Codec, e: Option<Envelope>) {
    e.Some? && ContentFits(e.value.metadata.contentType) && Size(e.value) > c.maxSize
  }

  method EncodeValue(c: Codec, token: Text, v: Value) returns (r: Result<seq<byte>, CodecError>)
    requires ValidCodec(c)
    ensures r.Ok? ==> Encodes(c, token, v, r.value)
    ensures (exists bytes :: Encodes(c, token, v, bytes)) ==> r.Ok?
    ensures r == Fail(InvalidToken) <==> !IsToken(token)
    ensures r == Fail(PayloadFailure) <==> IsToken(token) && c.encode(v).None?
    ensures r == Fail(CompressionFailure) <==>
      IsToken(token) && c.encode(v).Some? && Compressed(c, c.encode(v).value.data).None?
    ensures r == Fail(TooLong) <==> IsToken(token) && TooBig(c, EnvelopeFor(c, token, v))
    ensures r.Fail? ==> r.error in {InvalidToken, PayloadFailure, CompressionFailure, TooLong, UnsupportedFormat}
  {
    hide Layout, ValidEnvelope;
    if !IsToken(token) { return Fail(InvalidToken); }
    var s := c.encode(v);
    if s.None? { return Fail(PayloadFailure); }
    var algorithm, payload := IDENTITY, s.value.data;
    if c.writer.Some? {
      algorithm := c.writer.value.algorithm;
      var z := c.writer.value.compress(payload);
      if z.None? { return Fail(CompressionFailure); }
      payload := z.value;
    }
    var e := Envelope(1, token, s.value.metadata, algorithm, payload);
    EnvelopeValid(c, token, v);
    var bytes := EncodeEnvelope(e, c.maxSize);
    if Layable(e) { LayoutSize(e); }
    match bytes
    case Fail(SizeLimit) => r := Fail(TooLong);
    case Fail(_) => r := Fail(UnsupportedFormat);
    case Ok(b) => r := Ok(b);
  }

  // ----- what is decoded -----

  function Decompressed(c: Codec, e: Envelope): Result<seq<byte>, CodecError> {
    if e.algorithm == IDENTITY then Ok(e.payload)
    else if e.algorithm !in c.readers then Fail(UnknownAlgorithm)
    else
      var d := c.readers[e.algorithm].decompress(e.payload);
      if d.None? then Fail(CompressionFailure) else Ok(d.value)
  }

  /** The owner is compared before anything of the payload is looked at. */
  function Opened(c: Codec, e: Envelope, expected: Text): Result<Option<Value>, CodecError> {
    if e.owner != expected then Ok(None)
    else
      match Decompressed(c, e)
      case Fail(error) => Fail(error)
      case Ok(data) =>
        var v := c.decode(Serialized(e.metadata, data));
        if v.None? then Fail(PayloadFailure) else Ok(Some(v.value))
  }

  predicate Envelops(data: seq<byte>, e: Envelope) {
    Layable(e) && e.version == 1 && data == Layout(e)
  }

  method DecodeMatching(c: Codec, data: seq<byte>, expected: Text) returns (r: Result<Option<Value>, CodecError>)
    requires ValidCodec(c)
    ensures !IsToken(expected) ==> r == Fail(InvalidToken)
    ensures IsToken(expected) && |data| > c.maxSize ==> r == Fail(TooLong)
    ensures IsToken(expected) && |data| <= c.maxSize ==> forall e :: Envelops(data, e) ==> r == Opened(c, e, expected)
    ensures IsToken(expected) && |data| <= c.maxSize && (forall e :: !Envelops(data, e)) ==>
        r == Fail(if 5 <= |data| && data[..4] == MAGIC && data[4] != 1 then BadVersion else BadEnvelope)
  {
    hide Layout, Layable;
    if !IsToken(expected) { return Fail(InvalidToken); }
    if |data| > c.maxSize { return Fail(TooLong); }
    var decoded := DecodeEnvelope(data, c.maxSize);
    assert forall e :: Envelops(data, e) ==> decoded == Ok(e);
    if decoded.Fail? {
      return Fail(if decoded.error == UnsupportedVersion then BadVersion else BadEnvelope);
    }
    var e := decoded.value;
    assert Envelops(data, e);
    if e.owner != expected { return Ok(None); }
    var logical := e.payload;
    if e.algorithm != IDENTITY {
      if e.algorithm !in c.readers { return Fail(UnknownAlgorithm); }
      var d := c.readers[e.algorithm].decompress(e.payload);
      if d.None? { return Fail(CompressionFailure); }
      logical := d.value;
    }
    var v := c.decode(Serialized(e.metadata, logical));
    if v.None? { return Fail(PayloadFailure); }
    r := Ok(Some(v.value));
  }

  /** What an owner encoded opens to its value under its own token, and to a
      mismatch, never an error, under any other. */
  lemma OpensOwn(c: Codec, token: Text, v: Value, bytes: seq<byte>, expected: Text)
    requires ValidCodec(c) && Faithful(c) && Encodes(c, token, v, bytes)
    ensures var e := EnvelopeFor(c, token, v).value;
      Envelops(bytes, e) && Opened(c, e, expected) == if token == expected then Ok(Some(v)) else Ok(None)
  {
    hide Layout, Layable, IsAlgorithm;
    assert c.decode(c.encode(v).value) == Some(v);
  }
}

/** Reuse: what a waiting flight takes from the result key. */
module CoordinatedResults {
  import opened Wrappers
  import opened Utf8
  import opened Envelope
  import opened Coordination
  import opened ResultCodec

  /** Every owner publishes its own value's encoding. */
  ghost predicate HonestOwners(steps: seq<Step>, c: Codec, owned: Text -> Value) {
    forall i :: 0 <= i < |steps| && steps[i].command.Publish? ==>
      Encodes(c, steps[i].command.token, owned(steps[i].command.token), steps[i].command.bytes)
  }

  /** A completed marker's result, decoded under the marker's token, is the value
      that token's owner encoded: the mismatch, the oversize and every decoding
      error are unreachable. */
  lemma ReusedValueIsOwners(steps: seq<Step>, c: Codec, owned: Text -> Value)
    requires ValidCodec(c) && Faithful(c) && HonestOwners(steps, c, owned)
    requires Run(steps).phase.Completed?
    ensures var t, bytes := Run(steps).phase.token, Run(steps).phase.bytes;
      && IsToken(t) && |bytes| <= c.maxSize
      && exists e :: Envelops(bytes, e) && Opened(c, e, t) == Ok(Some(owned(t)))
  {
    hide Coordination.Run, Execute, Layout, Layable, IsToken;
    var t, bytes := Run(steps).phase.token, Run(steps).phase.bytes;
    var i := OriginOfCompleted(steps);
    assert Encodes(c, t, owned(t), bytes);
    OpensOwn(c, t, owned(t), bytes, t);
  }
}
